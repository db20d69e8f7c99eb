/** Where the promises of the allocation protocol stop: the behaviours that keep "stamped rows survive" and
    "shortening succeeds" from holding in every run. `UrlSplits` treats "one row per URL". */
module AllocationLimits {
  import opened Prelude
  import opened UrlTable
  import opened ShortKeys
  import opened ShortenProtocol
  import opened SequentialShorten
  import opened AllocationTheorems
  import opened UrlSplits

  /** A call has stored the URL, two redirects of its key were answered, and the later one has stamped the
      row; the goroutine of the earlier one is still to run. */
  ghost predicate TwiceVisited(s: Sys, url: string, key: string, newer: int) {
    && s.Primary() == [NewRow(url, key).(lastUsed := newer)]
    && s.pending == [0] && s.stamped == [Stamping(0, newer)]
  }

  lemma StoredAndVisited(hash: Hash, url: string, newer: int) returns (trace: seq<Action>)
    ensures TwiceVisited(Run(hash, INIT, trace), url, Slot(hash, url, 0), newer)
  {
    hide Run, Slot, Find, Expected;
    var key, none := Slot(hash, url, 0), [];
    var call := CallAlone(hash, INIT, 0, url, None);
    NothingFound(key);
    assert INIT.Primary() == [];
    ExpectedFree(hash, [], url, 0);
    var s := Run(hash, INIT, call);
    var row := NewRow(url, key);
    assert s.Primary() == none + [row] == [row];
    OnlyRow(row);
    var visit, stamp := Visit(key, None, NoFault), StampStep(1, newer, NoFault);
    RunSnoc(hash, INIT, call, visit);
    var s1 := Next(hash, s, visit);
    assert s1.pending == [0] && s1.Primary() == [row];
    RunSnoc(hash, INIT, call + [visit], visit);
    var s2 := Next(hash, s1, visit);
    assert s2.pending == [0, 0] && s2.Primary() == [row];
    RunSnoc(hash, INIT, call + [visit] + [visit], stamp);
    trace := call + [visit] + [visit] + [stamp];
    assert Next(hash, s2, stamp).Primary() == Stamp([row], 0, newer) == [row.(lastUsed := newer)];
  }

  /** Two redirects of a row may stamp it out of order: their clocks are read before their updates run. For
      every hash, URL and cutoff between the two times there is a run after which a sweep keeps the row, and
      after which, once the older stamp is executed too, the same sweep deletes it. */
  lemma OlderStampRewinds(hash: Hash, url: string, older: int, newer: int, cutoff: int, at: int)
      returns (trace: seq<Action>)
    requires older < cutoff <= newer
    ensures var s := Run(hash, INIT, trace);
      var stamped, sweep := Next(hash, s, StampStep(0, older, NoFault)), SweepStep(cutoff, at, NoFault);
      && TwiceVisited(s, url, Slot(hash, url, 0), newer)
      && Next(hash, s, sweep).Primary()[0].Live()
      && !Next(hash, stamped, sweep).Primary()[0].Live()
  {
    hide Run, Slot, StaleRows;
    trace := StoredAndVisited(hash, url, newer);
    var s := Run(hash, INIT, trace);
    var stamped, sweep := Next(hash, s, StampStep(0, older, NoFault)), SweepStep(cutoff, at, NoFault);
    assert stamped.Primary() == Stamp(s.Primary(), 0, older);
    assert Next(hash, stamped, sweep).Primary() == Sweep(stamped.Primary(), cutoff, at);
    assert Next(hash, s, sweep).Primary() == Sweep(s.Primary(), cutoff, at);
  }

  /** Without any fault, a call that runs alone and looks its slots up in an earlier state fails exactly when
      the probe ends, in that state, on a slot that is free there, or on the seventh, while on the primary
      the slot is occupied, be it by the URL's own row. */
  lemma LaggingReplicaConflicts(hash: Hash, s: Sys, p: Pid, url: string, seen: Option<nat>)
    requires p !in s.procs
    ensures var s' := Solo(hash, Next(hash, s, Begin(p, url)), p, seen, 8);
      var view, t := Seen(s, seen), s.Primary();
      && p in s'.procs
      && (s'.procs[p].pc.Failed? ==> s'.procs[p].pc == Failed(Conflict) && s'.Primary() == t)
      && (s'.procs[p].pc.Failed? <==>
          exists j | 0 <= j <= 6 :: Find(t, Slot(hash, url, j)).Some?
            && (j < 6 ==> Find(view, Slot(hash, url, j)).None?)
            && forall i | 0 <= i < j :: Blocked(view, url, Slot(hash, url, i)))
  {
    hide Slot, Find, Solo, Next;
    var view, t := Seen(s, seen), s.Primary();
    SoloRefines(hash, s, p, url, seen);
    var r := FirstOpen(hash, view, url, 0);
    if j :| 0 <= j <= 6 && Find(t, Slot(hash, url, j)).Some? && (j < 6 ==> Find(view, Slot(hash, url, j)).None?)
            && forall i | 0 <= i < j :: Blocked(view, url, Slot(hash, url, i)) {
      assert j < 6 ==> !Blocked(view, url, Slot(hash, url, j));
      assert r == j;
    }
  }

  /** In particular, when the URL's own row is the latest on its first slot, a call conflicts exactly when
      the state it reads is from before the slot was taken. */
  lemma StaleFirstSlotConflicts(hash: Hash, s: Sys, p: Pid, url: string, id: Id, seen: Option<nat>)
    requires p !in s.procs && UniqueLive(s.Primary())
    requires id < |s.Primary()| && s.Primary()[id].Live()
    requires s.Primary()[id].url == url && s.Primary()[id].key == Slot(hash, url, 0)
    requires !Blocked(Seen(s, seen), url, Slot(hash, url, 0))
    ensures var s' := Solo(hash, Next(hash, s, Begin(p, url)), p, seen, 8);
      p in s'.procs && (s'.procs[p].pc == Failed(Conflict) <==> Find(Seen(s, seen), Slot(hash, url, 0)).None?)
  {
    hide Slot, Solo, Next;
    FindLive(s.Primary(), id);
    hide Find;
    SoloRefines(hash, s, p, url, seen);
    assert FirstOpen(hash, Seen(s, seen), url, 0) == 0;
  }

  // ------------------------------------------------------------------ a first call that cannot succeed

  /** The first `n` slots of `url` have live rows, and no row at all is `url`'s. */
  ghost predicate HeldByOthers(hash: Hash, t: Table, url: string, n: nat) {
    && (forall i | 0 <= i < |t| :: t[i].url != url)
    && (forall j | 0 <= j < n :: Find(t, Slot(hash, url, j)).Some?)
  }

  lemma CallTakesItsSlot(hash: Hash, t: Table, other: string, url: string, n: nat)
    requires HeldByOthers(hash, t, url, n) && other != url && Slot(hash, other, 0) == Slot(hash, url, n)
    ensures HeldByOthers(hash, Expected(hash, t, other).table, url, n + 1)
  {
    hide Slot, Find;
    var r := FirstOpen(hash, t, other, 0);
    var key := Slot(hash, other, r);
    if Find(t, key).None? {
      forall j | 0 <= j < n + 1
        ensures Find(t + [NewRow(other, key)], Slot(hash, url, j)).Some?
      {
        FindAfterInsert(t, other, key, Slot(hash, url, j));
      }
    }
  }

  /** The URL whose first slot is slot `j` of `u`, given that `v` shares slot 0. */
  function Rival(u: string, v: string, j: nat): string {
    if j == 0 then v else Salted(u, j)
  }

  lemma {:induction false} RivalsTakeSlots(hash: Hash, u: string, v: string, n: nat) returns (trace: seq<Action>)
    requires u != v && Slot(hash, u, 0) == Slot(hash, v, 0)
    ensures Submits(trace, iset j: nat | j < n :: Rival(u, v, j))
    ensures HeldByOthers(hash, Run(hash, INIT, trace).Primary(), u, n)
    ensures forall p | p in Run(hash, INIT, trace).procs :: p < n
  {
    hide Run, Slot, Find, Expected, Salted;
    if n == 0 {
      trace := [];
      RunNone(hash, INIT);
      assert INIT.Primary() == [];
    } else {
      var before := RivalsTakeSlots(hash, u, v, n - 1);
      var s := Run(hash, INIT, before);
      var call := CallAlone(hash, s, n - 1, Rival(u, v, n - 1), None);
      if n > 1 {
        SaltedUrlSharesSlot(hash, u, n - 1);
      }
      CallTakesItsSlot(hash, s.Primary(), Rival(u, v, n - 1), u, n - 1);
      RunConcat(hash, INIT, before, call);
      trace := before + call;
    }
  }

  /** For every hash, one collision of first slots is enough for a call to fail although its URL was never
      shortened before: the salted texts of a URL are themselves URLs, which take the later slots. */
  lemma OneCollisionExhausts(hash: Hash, u: string, v: string) returns (trace: seq<Action>)
    requires u != v && Slot(hash, u, 0) == Slot(hash, v, 0)
    ensures Submits(trace, iset j: nat | j < 7 :: Rival(u, v, j))
    ensures var t := Run(hash, INIT, trace).Primary();
      (forall i | 0 <= i < |t| :: t[i].url != u) && Expected(hash, t, u) == Answer(t, Failed(Conflict))
  {
    hide Run, Slot, Find;
    trace := RivalsTakeSlots(hash, u, v, 7);
    FailsIff(hash, Run(hash, INIT, trace).Primary(), u);
  }
}
