/** Seven live rows per URL is not only a bound: whenever a URL has seven different slots and another URL
    shares the first of them, some run reaches it. */
module SevenRows {
  import opened Prelude
  import opened UrlTable
  import opened ShortKeys
  import opened ShortenProtocol
  import opened SequentialShorten
  import opened AllocationTheorems
  import opened UrlSplits
  import opened AllocationLimits

  /** `v` shares the first of the seven different slots of `u`. */
  ghost predicate Rivalry(hash: Hash, u: string, v: string) {
    && u != v && Slot(hash, u, 0) == Slot(hash, v, 0)
    && forall i, j | 0 <= i < j <= 6 :: Slot(hash, u, i) != Slot(hash, u, j)
  }

  /** The row found under a key belongs to `url` and was stamped. */
  predicate Owned(t: Table, url: string, key: string) {
    var id := Find(t, key);
    id.Some? && t[id.value].url == url && t[id.value].lastUsed == 100
  }

  /** The row found under a key belongs to another URL and was never stamped. */
  predicate Rented(t: Table, url: string, key: string) {
    var id := Find(t, key);
    id.Some? && t[id.value].url != url && t[id.value].lastUsed == ZERO_TIME
  }

  /** Rivals hold the slots below `n`, those from `n` below `k` are free, and `u` owns the rest. */
  ghost predicate Stack(hash: Hash, t: Table, u: string, n: nat, k: nat) {
    && (forall j | 0 <= j < n :: Rented(t, u, Slot(hash, u, j)))
    && (forall j | n <= j < k :: Find(t, Slot(hash, u, j)).None?)
    && (forall j | k <= j <= 6 :: Owned(t, u, Slot(hash, u, j)))
  }

  ghost predicate Ready(hash: Hash, s: Sys, u: string, n: nat, k: nat, pids: nat) {
    && Inv(hash, s) && Stack(hash, s.Primary(), u, n, k)
    && s.pending == [] && forall p | p in s.procs :: p < pids
  }

  /** `u` and the URLs that take its slots. */
  function Players(u: string, v: string): iset<string> {
    iset{u} + iset j: nat | j < 7 :: Rival(u, v, j)
  }

  lemma InsertInStack(t: Table, url: string, key: string, other: string, u: string)
    requires Find(t, key).None? && other != key
    ensures var t' := t + [NewRow(url, key)];
      && (Find(t', other).None? <==> Find(t, other).None?)
      && (Owned(t', u, other) <==> Owned(t, u, other))
      && (Rented(t', u, other) <==> Rented(t, u, other))
  {
    FindAfterInsert(t, url, key, other);
  }

  lemma RivalOfSlot(hash: Hash, u: string, v: string, j: nat)
    requires Rivalry(hash, u, v)
    ensures Rival(u, v, j) != u && Slot(hash, Rival(u, v, j), 0) == Slot(hash, u, j)
  {
    if j == 0 {
    } else {
      SaltedUrlSharesSlot(hash, u, j);
    }
  }

  lemma RivalInserts(hash: Hash, t: Table, u: string, v: string, n: nat, k: nat)
    requires Rivalry(hash, u, v) && n < k <= 7 && Stack(hash, t, u, n, k)
    ensures Stack(hash, Expected(hash, t, Rival(u, v, n)).table, u, n + 1, k)
  {
    hide Slot, Find, Expected, Owned, Rented, Rival;
    var other, key := Rival(u, v, n), Slot(hash, u, n);
    RivalOfSlot(hash, u, v, n);
    ExpectedFree(hash, t, other, 0);
    var t' := t + [NewRow(other, key)];
    forall j | 0 <= j <= 6 && j != n
      ensures Slot(hash, u, j) != key
      ensures Find(t', Slot(hash, u, j)).None? <==> Find(t, Slot(hash, u, j)).None?
      ensures Owned(t', u, Slot(hash, u, j)) <==> Owned(t, u, Slot(hash, u, j))
      ensures Rented(t', u, Slot(hash, u, j)) <==> Rented(t, u, Slot(hash, u, j))
    {
      InsertInStack(t, other, key, Slot(hash, u, j), u);
    }
    NewRowIsRented(t, other, key, u);
  }

  lemma NewRowIsRented(t: Table, url: string, key: string, u: string)
    requires url != u
    ensures Rented(t + [NewRow(url, key)], u, key)
  {
    LastRow(t, NewRow(url, key));
  }

  lemma {:induction false} RivalsCome(hash: Hash, s: Sys, u: string, v: string, n: nat, k: nat, pids: nat)
      returns (trace: seq<Action>)
    requires Rivalry(hash, u, v) && n <= k <= 7 && Ready(hash, s, u, 0, k, pids)
    ensures Submits(trace, Players(u, v)) && Ready(hash, Run(hash, s, trace), u, n, k, pids + n)
  {
    hide Run, Slot, Inv, Expected, Rival, Rivalry, Stack;
    if n == 0 {
      trace := [];
      RunNone(hash, s);
    } else {
      var before := RivalsCome(hash, s, u, v, n - 1, k, pids);
      var s1 := Run(hash, s, before);
      var call := CallAlone(hash, s1, pids + n - 1, Rival(u, v, n - 1), None);
      RivalInserts(hash, s1.Primary(), u, v, n - 1, k);
      RunKeepsInv(hash, s1, call);
      RunConcat(hash, s, before, call);
      trace := before + call;
    }
  }

  lemma FindAfterSweep(t: Table, key: string, cutoff: int, at: int)
    requires UniqueLive(t)
    ensures Find(Sweep(t, cutoff, at), key) ==
      if Find(t, key).Some? && t[Find(t, key).value].lastUsed >= cutoff then Find(t, key) else None
  {
    var t' := Sweep(t, cutoff, at);
    assert forall i | 0 <= i < |t| :: t'[i] == SweepRow(t[i], cutoff, at);
    if Find(t', key).Some? {
      FindLive(t, Find(t', key).value);
    } else if Find(t, key).Some? {
      assert t'[Find(t, key).value].key == key;
    }
  }

  lemma FindAfterStamp(t: Table, id: Id, at: int, key: string)
    requires UniqueLive(t) && ActiveAgrees(t)
    ensures Find(Stamp(t, id, at), key) == Find(t, key)
  {
    var t' := Stamp(t, id, at);
    StampKeepsIndex(t, id, at);
    if Find(t, key).Some? {
      FindLive(t', Find(t, key).value);
    } else {
      FreeKey(t', key);
    }
  }

  lemma SweptSlot(t: Table, u: string, id: Id, key: string)
    requires UniqueLive(t) && ActiveAgrees(t) && id < |t| && t[id].url == u
    ensures var t' := Sweep(Stamp(t, id, 100), 50, 100);
      && (Rented(t, u, key) ==> Find(t', key).None?)
      && (Owned(t, u, key) || Find(t, key) == Some(id) ==> Owned(t', u, key))
  {
    StampKeepsIndex(t, id, 100);
    FindAfterStamp(t, id, 100, key);
    FindAfterSweep(Stamp(t, id, 100), key, 50, 100);
    hide Find, UniqueLive, ActiveAgrees;
  }

  /** `u` has just taken slot `m`; once its row is stamped the sweep leaves only its rows. */
  lemma SweptStack(hash: Hash, t: Table, u: string, m: nat, id: Id)
    requires UniqueLive(t) && ActiveAgrees(t) && m <= 6 && Find(t, Slot(hash, u, m)) == Some(id) && t[id].url == u
    requires forall j | 0 <= j < m :: Rented(t, u, Slot(hash, u, j))
    requires forall j | m < j <= 6 :: Owned(t, u, Slot(hash, u, j))
    ensures Stack(hash, Sweep(Stamp(t, id, 100), 50, 100), u, 0, m)
  {
    hide Slot, Find, Owned, Rented, Sweep, Stamp, UniqueLive, ActiveAgrees;
    forall j | 0 <= j <= 6
      ensures var t', key := Sweep(Stamp(t, id, 100), 50, 100), Slot(hash, u, j);
        if j < m then Find(t', key).None? else Owned(t', u, key)
    {
      SweptSlot(t, u, id, Slot(hash, u, j));
    }
  }

  /** With rivals on all earlier slots, `u` takes slot `m`. */
  lemma OwnerInserts(hash: Hash, t: Table, u: string, m: nat)
    requires m <= 6 && Stack(hash, t, u, m, m + 1)
    requires forall i, j | 0 <= i < j <= 6 :: Slot(hash, u, i) != Slot(hash, u, j)
    ensures var t' := Expected(hash, t, u).table;
      && Find(t', Slot(hash, u, m)) == Some(|t|) && |t'| == |t| + 1 && t'[|t|] == NewRow(u, Slot(hash, u, m))
      && (forall j | 0 <= j < m :: Rented(t', u, Slot(hash, u, j)))
      && (forall j | m < j <= 6 :: Owned(t', u, Slot(hash, u, j)))
  {
    hide Slot, Expected;
    var key := Slot(hash, u, m);
    forall i | 0 <= i < m
      ensures Blocked(t, u, Slot(hash, u, i))
    {
      assert Rented(t, u, Slot(hash, u, i));
    }
    ExpectedFree(hash, t, u, m);
    hide Find, Owned, Rented;
    LastRow(t, NewRow(u, key));
    forall j | 0 <= j <= 6 && j != m
      ensures Slot(hash, u, j) != key
      ensures var t' := t + [NewRow(u, key)];
        && (Owned(t', u, Slot(hash, u, j)) <==> Owned(t, u, Slot(hash, u, j)))
        && (Rented(t', u, Slot(hash, u, j)) <==> Rented(t, u, Slot(hash, u, j)))
    {
      InsertInStack(t, u, key, Slot(hash, u, j), u);
    }
  }

  /** One more row for `u`: rivals fill the slots before `m`, `u` goes to `m`, the rivals are swept. */
  lemma OneMoreRow(hash: Hash, s: Sys, u: string, v: string, m: nat, pids: nat) returns (trace: seq<Action>)
    requires Rivalry(hash, u, v) && m <= 6 && Ready(hash, s, u, 0, m + 1, pids)
    ensures Submits(trace, Players(u, v)) && Ready(hash, Run(hash, s, trace), u, 0, m, pids + m + 1)
  {
    hide Run, Slot, Inv, Expected, Rival, Stack, Find;
    var rivals := RivalsCome(hash, s, u, v, m, m + 1, pids);
    var s1 := Run(hash, s, rivals);
    var call := CallAlone(hash, s1, pids + m, u, None);
    OwnerInserts(hash, s1.Primary(), u, m);
    RunConcat(hash, s, rivals, call);
    RunKeepsInv(hash, s1, call);
    var s2 := Run(hash, s1, call);
    var id := |s1.Primary()|;
    var sweep := StampAndSweep(hash, s2, id);
    TableOfInv(hash, s2);
    SweptStack(hash, s2.Primary(), u, m, id);
    RunKeepsInv(hash, s2, sweep);
    RunConcat(hash, s, rivals + call, sweep);
    trace := rivals + call + sweep;
  }

  lemma TableOfInv(hash: Hash, s: Sys)
    requires Inv(hash, s)
    ensures UniqueLive(s.Primary()) && ActiveAgrees(s.Primary())
  {
  }

  lemma {:induction false} StackUp(hash: Hash, u: string, v: string, k: nat) returns (trace: seq<Action>, pids: nat)
    requires Rivalry(hash, u, v) && k <= 7
    ensures Submits(trace, Players(u, v)) && Ready(hash, Run(hash, INIT, trace), u, 0, k, pids)
    decreases 7 - k
  {
    hide Run, Slot, Inv, Rival;
    if k == 7 {
      trace, pids := [], 0;
      RunNone(hash, INIT);
      InitInv(hash);
      assert INIT.Primary() == [];
    } else {
      var before, n := StackUp(hash, u, v, k + 1);
      var more := OneMoreRow(hash, Run(hash, INIT, before), u, v, k, n);
      RunConcat(hash, INIT, before, more);
      trace, pids := before + more, n + k + 1;
    }
  }

  lemma {:induction false} DistinctSlots(hash: Hash, u: string, n: nat)
    requires n <= 7 && forall i, j | 0 <= i < j <= 6 :: Slot(hash, u, i) != Slot(hash, u, j)
    ensures |Slots(hash, u, n)| == n
    ensures forall key | key in Slots(hash, u, n) :: exists j :: 0 <= j < n && key == Slot(hash, u, j)
  {
    hide Slot;
    if n == 0 {
    } else {
      DistinctSlots(hash, u, n - 1);
    }
  }

  /** The bound of seven live rows per URL is attained, for every hash under which a URL has seven different
      slots and shares the first with another URL. */
  lemma SevenIsAttained(hash: Hash, u: string, v: string) returns (trace: seq<Action>)
    requires Rivalry(hash, u, v)
    ensures Submits(trace, Players(u, v))
    ensures |LiveRowsOf(Run(hash, INIT, trace).Primary(), u)| == 7
  {
    hide Run, Slot, Inv, Rival;
    var pids;
    trace, pids := StackUp(hash, u, v, 0);
    var t := Run(hash, INIT, trace).Primary();
    TableOfEveryRun(hash, trace, u);
    var ids := LiveRowsOf(t, u);
    DistinctKeys(t, ids);
    DistinctSlots(hash, u, 7);
    forall key | key in Slots(hash, u, 7)
      ensures key in KeysOf(t, ids)
    {
      var j :| 0 <= j < 7 && key == Slot(hash, u, j);
      assert Owned(t, u, key);
      assert Find(t, key).value in ids;
    }
    SubsetCard(Slots(hash, u, 7), KeysOf(t, ids));
  }
}
