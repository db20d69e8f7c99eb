/** When a URL can end up with two live rows, or with two different keys: exactly when two of the URLs
    submitted share their first slot and one of them has a different slot to move to. The condition
    depends on the hash and the URLs alone. */
module UrlSplits {
  import opened Prelude
  import Decimal
  import opened UrlTable
  import opened ShortKeys
  import opened ShortenProtocol
  import opened SequentialShorten
  import opened AllocationTheorems

  /** `u` shares its first slot with `v` and has another slot. */
  ghost predicate Splits(hash: Hash, u: string, v: string) {
    u != v && Slot(hash, u, 0) == Slot(hash, v, 0) && exists j :: 1 <= j <= 6 && Slot(hash, u, j) != Slot(hash, u, 0)
  }

  ghost predicate SomeSplit(hash: Hash, urls: iset<string>) {
    exists u, v :: u in urls && v in urls && Splits(hash, u, v)
  }

  /** Only these URLs are shortened in the run. */
  predicate Submits(trace: seq<Action>, urls: iset<string>) {
    forall i | 0 <= i < |trace| :: trace[i].Begin? ==> trace[i].url in urls
  }

  ghost predicate OneKeyEach(procs: map<Pid, Proc>) {
    forall p, q | p in procs && q in procs && procs[p].pc.Done? && procs[q].pc.Done? && procs[p].url == procs[q].url ::
      procs[p].pc.key == procs[q].pc.key
  }

  // ------------------------------------------------------------------ without such a pair

  ghost predicate RowsPlain(hash: Hash, urls: iset<string>, t: Table) {
    forall i | 0 <= i < |t| :: t[i].url in urls && t[i].key == Slot(hash, t[i].url, 0)
  }

  predicate PcPlain(hash: Hash, url: string, pc: Pc) {
    pc.Failed? || pc.key == Slot(hash, url, 0)
  }

  ghost predicate ProcsPlain(hash: Hash, urls: iset<string>, procs: map<Pid, Proc>) {
    forall p | p in procs :: procs[p].url in urls && PcPlain(hash, procs[p].url, procs[p].pc)
  }

  ghost predicate Plain(hash: Hash, urls: iset<string>, s: Sys) {
    RowsPlain(hash, urls, s.Primary()) && ProcsPlain(hash, urls, s.procs)
  }

  /** A call that finds another URL on its slot moves on to the very same slot. */
  lemma AfterLookupPlain(hash: Hash, urls: iset<string>, t: Table, url: string, pc: Pc, reply: Reply)
    requires pc.Lookup? && PcInv(hash, t, url, pc) && PcPlain(hash, url, pc) && ReplySound(t, pc.key, reply)
    requires RowsPlain(hash, urls, t) && url in urls && !SomeSplit(hash, urls)
    ensures PcPlain(hash, url, AfterLookup(hash, url, pc.attempt, pc.key, reply))
  {
    hide Salted, ShortKey;
    if reply.Found? && reply.row.url != url {
      var other := t[reply.id].url;
      assert !Splits(hash, url, other);
      assert Slot(hash, url, pc.attempt + 1) == Slot(hash, url, 0);
    }
  }

  lemma SetPlain(hash: Hash, urls: iset<string>, s: Sys, p: Pid, pc: Pc)
    requires p in s.procs && ProcsPlain(hash, urls, s.procs) && PcPlain(hash, s.procs[p].url, pc)
    ensures ProcsPlain(hash, urls, Set(s, p, pc).procs)
  {
    hide Slot;
  }

  lemma LookupPlain(hash: Hash, urls: iset<string>, s: Sys, p: Pid, seen: Option<nat>, fault: Fault)
    requires Inv(hash, s) && Plain(hash, urls, s) && !SomeSplit(hash, urls)
    ensures Plain(hash, urls, DoLookup(hash, s, p, seen, fault))
  {
    hide RowsPlain, PcPlain, SomeSplit, Read, Slot, RowsInv, HistoryInv, ReplySound, AfterLookup;
    if p in s.procs && s.procs[p].pc.Lookup? {
      var Proc(url, pc) := s.procs[p];
      var reply := Read(s, pc.key, seen, fault);
      ReadIsSound(s, pc.key, seen, fault);
      AfterLookupPlain(hash, urls, s.Primary(), url, pc, reply);
      SetPlain(hash, urls, s, p, AfterLookup(hash, url, pc.attempt, pc.key, reply));
    }
  }

  lemma CreatePlain(hash: Hash, urls: iset<string>, s: Sys, p: Pid, fault: Fault)
    requires Plain(hash, urls, s)
    ensures Plain(hash, urls, DoCreate(s, p, fault))
  {
    hide Slot, Find;
    if p in s.procs && s.procs[p].pc.Create? {
      var mid := s.Commit(Insert(s.Primary(), NewRow(s.procs[p].url, s.procs[p].pc.key), fault));
      assert RowsPlain(hash, urls, mid.Primary());
      SetPlain(hash, urls, mid, p, AfterCreate(s.Primary(), s.procs[p].pc.key, fault));
    }
  }

  lemma NextPlain(hash: Hash, urls: iset<string>, s: Sys, a: Action)
    requires Inv(hash, s) && Plain(hash, urls, s) && !SomeSplit(hash, urls)
    requires a.Begin? ==> a.url in urls
    ensures Plain(hash, urls, Next(hash, s, a))
  {
    hide Find, StaleRows, SomeSplit, Inv, ShortKey, Read, Plain;
    match a
    case LookupStep(p, seen, fault) => LookupPlain(hash, urls, s, p, seen, fault);
    case CreateStep(p, fault) => CreatePlain(hash, urls, s, p, fault);
    case LogStep(p, fault) => LogPlain(hash, urls, s, p, fault);
    case StampStep(_, _, _) => RowsOnlyPlain(hash, urls, s, Next(hash, s, a));
    case SweepStep(_, _, _) => RowsOnlyPlain(hash, urls, s, Next(hash, s, a));
    case Visit(_, _, _) => RowsOnlyPlain(hash, urls, s, Next(hash, s, a));
    case Begin(p, url) => BeginPlain(hash, urls, s, p, url);
  }

  lemma BeginPlain(hash: Hash, urls: iset<string>, s: Sys, p: Pid, url: string)
    requires Plain(hash, urls, s) && url in urls
    ensures Plain(hash, urls, DoBegin(hash, s, p, url))
  {
    assert PcPlain(hash, url, Lookup(0, ShortKey(hash, url)));
  }

  lemma LogPlain(hash: Hash, urls: iset<string>, s: Sys, p: Pid, fault: Fault)
    requires Plain(hash, urls, s)
    ensures Plain(hash, urls, DoLog(s, p, fault))
  {
    hide Slot;
    if p in s.procs && s.procs[p].pc.Log? {
      SetPlain(hash, urls, s, p, Done(s.procs[p].pc.id, s.procs[p].pc.key));
    }
  }

  lemma RowsOnlyPlain(hash: Hash, urls: iset<string>, s: Sys, s': Sys)
    requires Plain(hash, urls, s) && s'.procs == s.procs && |s'.Primary()| == |s.Primary()|
    requires forall i | 0 <= i < |s.Primary()| ::
      s'.Primary()[i].url == s.Primary()[i].url && s'.Primary()[i].key == s.Primary()[i].key
    ensures Plain(hash, urls, s')
  {
  }

  lemma {:induction false} RunPlain(hash: Hash, urls: iset<string>, trace: seq<Action>)
    requires Submits(trace, urls) && !SomeSplit(hash, urls)
    ensures Plain(hash, urls, Run(hash, INIT, trace))
  {
    hide Next, SomeSplit;
    if trace == [] {
      assert INIT.Primary() == [];
    } else {
      var init, a := trace[..|trace| - 1], trace[|trace| - 1];
      RunPlain(hash, urls, init);
      Reachable(hash, init);
      NextPlain(hash, urls, Run(hash, INIT, init), a);
    }
  }

  lemma AtMostOne(ids: set<Id>)
    requires forall a, b | a in ids && b in ids :: a == b
    ensures |ids| <= 1
  {
    if a :| a in ids {
      assert ids == {a};
    }
  }

  /** Without such a pair every row and every answer carries its URL's first key, in every run, cleanup
      and stale lookups included. */
  lemma NoSplitKeepsKeys(hash: Hash, urls: iset<string>, trace: seq<Action>, url: string)
    requires Submits(trace, urls) && !SomeSplit(hash, urls)
    ensures Plain(hash, urls, Run(hash, INIT, trace))
    ensures |LiveRowsOf(Run(hash, INIT, trace).Primary(), url)| <= 1
    ensures OneKeyEach(Run(hash, INIT, trace).procs)
  {
    hide Run, SomeSplit;
    RunPlain(hash, urls, trace);
    Reachable(hash, trace);
    AtMostOne(LiveRowsOf(Run(hash, INIT, trace).Primary(), url));
  }

  // ------------------------------------------------------------------ calls that run alone, as runs

  ghost predicate OnlyCall(s: Sys, s': Sys, p: Pid) {
    && s'.pending == s.pending && s'.stamped == s.stamped
    && forall q | q != p :: (q in s'.procs <==> q in s.procs) && (q in s.procs ==> s'.procs[q] == s.procs[q])
  }

  lemma OwnStepIsLocal(hash: Hash, s: Sys, p: Pid, seen: Option<nat>)
    requires p in s.procs
    ensures OnlyCall(s, Next(hash, s, OwnStep(s, p, seen)), p) && p in Next(hash, s, OwnStep(s, p, seen)).procs
  {
  }

  lemma {:induction false} SoloIsRun(hash: Hash, s: Sys, p: Pid, seen: Option<nat>, steps: nat)
      returns (trace: seq<Action>)
    requires p in s.procs
    ensures Run(hash, s, trace) == Solo(hash, s, p, seen, steps) && OnlyCall(s, Run(hash, s, trace), p)
    ensures Submits(trace, iset{})
    decreases steps
  {
    hide Next;
    trace := [];
    RunNone(hash, s);
    if steps == 0 {
    } else {
      var a := OwnStep(s, p, seen);
      OwnStepIsLocal(hash, s, p, seen);
      var rest := SoloIsRun(hash, Next(hash, s, a), p, seen, steps - 1);
      RunSnoc(hash, s, trace, a);
      RunConcat(hash, s, [] + [a], rest);
      trace := [a] + rest;
    }
  }

  /** A call that runs alone, reading the primary or one earlier state, is a run that ends with the specified
      table and answer. */
  lemma CallAlone(hash: Hash, s: Sys, p: Pid, url: string, seen: Option<nat>) returns (trace: seq<Action>)
    requires p !in s.procs
    ensures Submits(trace, iset{url})
    ensures OnlyCall(s, Run(hash, s, trace), p)
    ensures Ends(Run(hash, s, trace), p, url, Lagged(hash, Seen(s, seen), s.Primary(), url))
    ensures seen == None ==> Ends(Run(hash, s, trace), p, url, Expected(hash, s.Primary(), url))
  {
    hide Run, Lagged, Solo;
    var a, none := Begin(p, url), [];
    var s1 := DoBegin(hash, s, p, url);
    var rest := SoloIsRun(hash, s1, p, seen, 8);
    SoloRefines(hash, s, p, url, seen);
    RunNone(hash, s);
    RunSnoc(hash, s, none, a);
    RunConcat(hash, s, none + [a], rest);
    trace := none + [a] + rest;
  }

  // ------------------------------------------------------------------ with such a pair

  /** The first slot of `u` that differs from its slot 0. */
  lemma FirstOther(hash: Hash, u: string, v: string) returns (j: nat)
    requires Splits(hash, u, v)
    ensures 1 <= j <= 6 && Slot(hash, u, j) != Slot(hash, u, 0)
    ensures forall i | 0 <= i < j :: Slot(hash, u, i) == Slot(hash, u, 0)
  {
    hide Slot;
    j := 1;
    while Slot(hash, u, j) == Slot(hash, u, 0)
      invariant 1 <= j <= 6
      invariant forall i | 0 <= i < j :: Slot(hash, u, i) == Slot(hash, u, 0)
      invariant exists i :: j <= i <= 6 && Slot(hash, u, i) != Slot(hash, u, 0)
      decreases 6 - j
    {
      j := j + 1;
    }
  }

  lemma NothingFound(key: string)
    ensures Find([], key).None?
  {
  }

  lemma OnlyRow(row: Row)
    ensures row.Live() ==> Find([row], row.key) == Some(0)
    ensures forall key | key != row.key :: Find([row], key) == None
  {
  }

  lemma ExpectedFree(hash: Hash, t: Table, url: string, j: nat)
    requires j <= 6 && Find(t, Slot(hash, url, j)).None?
    requires forall i | 0 <= i < j :: Blocked(t, url, Slot(hash, url, i))
    ensures Expected(hash, t, url) == Answer(t + [NewRow(url, Slot(hash, url, j))], Done(|t|, Slot(hash, url, j)))
  {
    assert !Blocked(t, url, Slot(hash, url, j));
    assert FirstOpen(hash, t, url, 0) == j;
  }

  /** `v` takes the slot the two share and `u` goes to the first other one. */
  lemma BothShortened(hash: Hash, u: string, v: string, j: nat) returns (trace: seq<Action>)
    requires u != v && Slot(hash, u, 0) == Slot(hash, v, 0) && 1 <= j <= 6 && Slot(hash, u, j) != Slot(hash, u, 0)
    requires forall i | 0 <= i < j :: Slot(hash, u, i) == Slot(hash, u, 0)
    ensures Submits(trace, iset{u, v})
    ensures var s := Run(hash, INIT, trace);
      && s.Primary() == [NewRow(v, Slot(hash, u, 0)), NewRow(u, Slot(hash, u, j))]
      && s.procs.Keys == {0, 1} && s.procs[1] == Proc(u, Done(1, Slot(hash, u, j)))
      && s.pending == []
  {
    hide Run, Slot, Find, Expected;
    var r0 := NewRow(v, Slot(hash, v, 0));
    var first := CallAlone(hash, INIT, 0, v, None);
    var s1 := Run(hash, INIT, first);
    NothingFound(Slot(hash, v, 0));
    ExpectedFree(hash, [], v, 0);
    assert INIT.Primary() == [] && [] + [r0] == [r0];
    var second := CallAlone(hash, s1, 1, u, None);
    OnlyRow(r0);
    ExpectedFree(hash, [r0], u, j);
    RunConcat(hash, INIT, first, second);
    trace := first + second;
    assert [r0] + [NewRow(u, Slot(hash, u, j))] == [r0, NewRow(u, Slot(hash, u, j))];
  }

  /** A row is visited and stamped, and then everything not used since is swept. */
  lemma StampAndSweep(hash: Hash, s: Sys, id: Id) returns (trace: seq<Action>)
    requires s.pending == [] && id < |s.Primary()| && Find(s.Primary(), s.Primary()[id].key) == Some(id)
    ensures Submits(trace, iset{})
    ensures var s' := Run(hash, s, trace);
      s'.procs == s.procs && s'.pending == [] && s'.Primary() == Sweep(Stamp(s.Primary(), id, 100), 50, 100)
  {
    hide Run, StaleRows, Find;
    var t := s.Primary();
    var visit, stamp, sweep := Visit(t[id].key, None, NoFault), StampStep(0, 100, NoFault), SweepStep(50, 100, NoFault);
    trace := [];
    RunNone(hash, s);
    RunSnoc(hash, s, trace, visit);
    var s1 := Next(hash, s, visit);
    assert s1.pending == [id] && s1.Primary() == t;
    RunSnoc(hash, s, trace + [visit], stamp);
    var s2 := Next(hash, s1, stamp);
    assert s2.pending == [] && s2.Primary() == Stamp(t, id, 100);
    RunSnoc(hash, s, trace + [visit] + [stamp], sweep);
    trace := trace + [visit] + [stamp] + [sweep];
  }

  lemma LastRow(t: Table, row: Row)
    requires row.Live()
    ensures Find(t + [row], row.key) == Some(|t|)
  {
  }

  lemma SweptPair(r0: Row, r1: Row)
    requires r0.Live() && r1.Live() && r0.lastUsed == ZERO_TIME && r0.key != r1.key
    ensures var t := Sweep(Stamp([r0, r1], 1, 100), 50, 100);
      && |t| == 2 && !t[0].Live() && t[0].url == r0.url && t[1].Live() && t[1].url == r1.url
      && Find(t, r0.key).None?
  {
  }

  lemma TwoLiveRows(t: Table, url: string, key: string)
    requires |t| == 2 && !t[0].Live() && t[1].Live() && t[1].url == url
    ensures LiveRowsOf(t + [NewRow(url, key)], url) == {1, 2}
  {
  }

  lemma KeysDiffer(procs: map<Pid, Proc>, p: Pid, q: Pid)
    requires p in procs && q in procs && procs[p].pc.Done? && procs[q].pc.Done?
    requires procs[p].url == procs[q].url && procs[p].pc.key != procs[q].pc.key
    ensures !OneKeyEach(procs)
  {
  }

  /** Three calls, one redirect and one sweep, without any fault or stale read, leave `u` with two live
      rows and two calls of `u` with different keys. */
  lemma CleanupSplitsUrl(hash: Hash, u: string, v: string) returns (trace: seq<Action>)
    requires Splits(hash, u, v)
    ensures Submits(trace, iset{u, v})
    ensures LiveRowsOf(Run(hash, INIT, trace).Primary(), u) == {1, 2}
    ensures !OneKeyEach(Run(hash, INIT, trace).procs)
  {
    var j := FirstOther(hash, u, v);
    hide Run, Slot, Find, Expected, LiveRowsOf, OneKeyEach;
    var first := BothShortened(hash, u, v, j);
    var s := Run(hash, INIT, first);
    var r0, r1 := NewRow(v, Slot(hash, u, 0)), NewRow(u, Slot(hash, u, j));
    LastRow([r0], r1);
    assert [r0] + [r1] == [r0, r1];
    var middle := StampAndSweep(hash, s, 1);
    SweptPair(r0, r1);
    var s1 := Run(hash, s, middle);
    RunConcat(hash, INIT, first, middle);
    var last := CallAlone(hash, s1, 2, u, None);
    ExpectedFree(hash, s1.Primary(), u, 0);
    trace := first + middle + last;
    RunConcat(hash, INIT, first + middle, last);
    var s2 := Run(hash, INIT, trace);
    TwoLiveRows(s1.Primary(), u, Slot(hash, u, 0));
    KeysDiffer(s2.procs, 1, 2);
  }

  /** Some run of calls for these URLs, interleaved in any way with redirects, stamps, sweeps, faults and
      stale lookups, leaves a URL with two live rows. */
  ghost predicate TwoRowsArise(hash: Hash, urls: iset<string>) {
    exists trace, url :: Submits(trace, urls) && |LiveRowsOf(Run(hash, INIT, trace).Primary(), url)| >= 2
  }

  ghost predicate TwoKeysArise(hash: Hash, urls: iset<string>) {
    exists trace :: Submits(trace, urls) && !OneKeyEach(Run(hash, INIT, trace).procs)
  }

  lemma SplitArises(hash: Hash, urls: iset<string>, u: string, v: string)
    requires u in urls && v in urls && Splits(hash, u, v)
    ensures TwoRowsArise(hash, urls) && TwoKeysArise(hash, urls)
  {
    hide Run, Splits;
    var trace := CleanupSplitsUrl(hash, u, v);
    assert |LiveRowsOf(Run(hash, INIT, trace).Primary(), u)| == 2;
  }

  /** "One live row per URL" and "one key per URL" can fail exactly when two of the submitted URLs share
      their first slot and one of them has another slot to go to. */
  lemma SplitsIff(hash: Hash, urls: iset<string>)
    ensures TwoRowsArise(hash, urls) <==> SomeSplit(hash, urls)
    ensures TwoKeysArise(hash, urls) <==> SomeSplit(hash, urls)
  {
    hide Run, Splits;
    if u, v :| u in urls && v in urls && Splits(hash, u, v) {
      SplitArises(hash, urls, u, v);
    } else {
      forall trace, url | Submits(trace, urls)
        ensures |LiveRowsOf(Run(hash, INIT, trace).Primary(), url)| <= 1
      {
        NoSplitKeepsKeys(hash, urls, trace, url);
      }
      forall trace | Submits(trace, urls)
        ensures OneKeyEach(Run(hash, INIT, trace).procs)
      {
        NoSplitKeepsKeys(hash, urls, trace, "");
      }
    }
  }

  /** A hash under which "u" shares its first slot with "v" and has seven different slots. */
  function SampleHash(): Hash {
    url => if url == Salted("u", 1) then 1
           else if url == Salted("u", 2) then 2
           else if url == Salted("u", 3) then 3
           else if url == Salted("u", 4) then 4
           else if url == Salted("u", 5) then 5
           else if url == Salted("u", 6) then 6
           else 0
  }

  lemma SaltsDiffer(url: string, i: nat, j: nat)
    requires Salted(url, i) == Salted(url, j)
    ensures i == j
  {
    Decimal.SuffixInjective(url, i, url, j);
  }

  lemma SampleValues(j: nat)
    requires j <= 6
    ensures SampleHash()(if j == 0 then "u" else Salted("u", j)) == j && SampleHash()("v") == 0
  {
    hide Salted;
    assert forall i: nat :: |Salted("u", i)| > 1 by {
      SaltedIsLonger("u");
    }
    forall i | 1 <= i <= 6 && Salted("u", i) == Salted("u", j)
      ensures i == j
    {
      SaltsDiffer("u", i, j);
    }
  }

  lemma SaltedIsLonger(url: string)
    ensures forall i: nat :: |Salted(url, i)| > |url|
  {
  }

  /** Such hashes exist, even with seven different slots. */
  lemma SplittingHash() returns (hash: Hash)
    ensures Splits(hash, "u", "v")
    ensures forall i, j | 0 <= i < j <= 6 :: Slot(hash, "u", i) != Slot(hash, "u", j)
  {
    hide ShortKey, Encode, Decode, Pow62, Salted, SampleHash;
    hash := SampleHash();
    KeySpaceFits();
    forall i, j | 0 <= i < j <= 6
      ensures Slot(hash, "u", i) != Slot(hash, "u", j)
    {
      SampleValues(i);
      SampleValues(j);
      SameKeyIffCongruent(hash, if i == 0 then "u" else Salted("u", i), Salted("u", j));
    }
    SampleValues(0);
    SameKeyIffCongruent(hash, "u", "v");
    assert Slot(hash, "u", 0) != Slot(hash, "u", 1);
  }
}
