/** The `urls` table and the four SQL statements the repository runs against it.

    Rows are never physically removed, so a table is the sequence of its rows in insertion order and a
    row's position stands for its UUID. Each statement is one atomic step. */
module UrlTable {
  import opened Prelude

  type Id = nat

  /** Go's zero time (1 January of year 1), in nanoseconds since the Unix epoch. */
  const ZERO_TIME: int := -62_135_596_800 * NANOS_PER_SECOND

  /** It lies 1969 years of the Gregorian calendar before the epoch. */
  lemma ZeroTimeIsYearOne()
    ensures ZERO_TIME == -(1969 * 365 + 1969 / 4 - 1969 / 100 + 1969 / 400) * 24 * 60 * 60 * 1_000_000_000
  {
  }

  datatype Row = Row(url: string, key: string, lastUsed: int, active: bool, deletedAt: Option<int>) {
    predicate Live() {
      deletedAt.None?
    }
  }

  type Table = seq<Row>

  /** `NewURL`: the new row is active but carries the zero time as its last use. */
  function NewRow(url: string, key: string): Row {
    Row(url, key, ZERO_TIME, true, None)
  }

  /** `SELECT … WHERE short_key = $1 AND deleted_at IS NULL`. */
  function Find(t: Table, key: string): (r: Option<Id>)
    ensures r.Some? ==> r.value < |t| && t[r.value].key == key && t[r.value].Live()
    ensures r.None? ==> forall i | 0 <= i < |t| :: !(t[i].key == key && t[i].Live())
  {
    if t == [] then None
    else if t[|t| - 1].key == key && t[|t| - 1].Live() then Some(|t| - 1)
    else Find(t[..|t| - 1], key)
  }

  /** `UPDATE urls SET last_used_at = $1 WHERE id = $2`: it does not look at deleted_at. */
  function Stamp(t: Table, id: Id, at: int): Table {
    if id < |t| then t[id := t[id].(lastUsed := at)] else t
  }

  predicate Stale(row: Row, cutoff: int) {
    row.Live() && row.lastUsed < cutoff
  }

  function SweepRow(row: Row, cutoff: int, at: int): Row {
    if Stale(row, cutoff) then row.(deletedAt := Some(at), active := false) else row
  }

  /** `UPDATE urls SET deleted_at = $1, is_active = false WHERE last_used_at < $2 AND deleted_at IS NULL`. */
  function Sweep(t: Table, cutoff: int, at: int): Table {
    seq(|t|, i requires 0 <= i < |t| => SweepRow(t[i], cutoff, at))
  }

  /** The number of rows the sweep reports. */
  function StaleRows(t: Table, cutoff: int): nat {
    if t == [] then 0
    else StaleRows(t[..|t| - 1], cutoff) + if Stale(t[|t| - 1], cutoff) then 1 else 0
  }

  /** A sweep of `t` that leaves `t'`: it marks the live rows last used before the cutoff as deleted at the
      given time and inactive, and touches nothing else. */
  ghost predicate Swept(t: Table, t': Table, cutoff: int, at: int) {
    && |t'| == |t|
    && forall i | 0 <= i < |t| ::
         t'[i] == if t[i].deletedAt.None? && t[i].lastUsed < cutoff
                  then Row(t[i].url, t[i].key, t[i].lastUsed, false, Some(at))
                  else t[i]
  }

  lemma SweepSweeps(t: Table, cutoff: int, at: int)
    ensures Swept(t, Sweep(t, cutoff, at), cutoff, at)
  {
  }

  /** The reported number is the number of live rows last used before the cutoff. */
  lemma {:induction false} StaleRowsAreCounted(t: Table, cutoff: int)
    ensures StaleRows(t, cutoff) == |set i | 0 <= i < |t| && t[i].deletedAt.None? && t[i].lastUsed < cutoff|
  {
    var stale := set i | 0 <= i < |t| && t[i].deletedAt.None? && t[i].lastUsed < cutoff;
    if t == [] {
      assert stale == {};
    } else {
      var n := |t| - 1;
      StaleRowsAreCounted(t[..n], cutoff);
      var before := set i | 0 <= i < n && t[..n][i].deletedAt.None? && t[..n][i].lastUsed < cutoff;
      assert stale == if Stale(t[n], cutoff) then before + {n} else before;
    }
  }

  function DeadRows(t: Table): nat {
    if t == [] then 0
    else DeadRows(t[..|t| - 1]) + if t[|t| - 1].Live() then 0 else 1
  }

  /** The partial unique index of the migration: no two live rows share a key. */
  ghost predicate UniqueLive(t: Table) {
    forall i, j | 0 <= i < j < |t| :: t[i].Live() && t[j].Live() ==> t[i].key != t[j].key
  }

  ghost predicate ActiveAgrees(t: Table) {
    forall i | 0 <= i < |t| :: t[i].active <==> t[i].Live()
  }

  /** What every later state of the table keeps of an earlier one: its rows, their URLs and keys, and
      the deletions. */
  ghost predicate Evolves(t: Table, t': Table) {
    |t| <= |t'| &&
    forall i | 0 <= i < |t| :: t'[i].url == t[i].url && t'[i].key == t[i].key && (t'[i].Live() ==> t[i].Live())
  }

  lemma FindLive(t: Table, id: Id)
    requires UniqueLive(t) && id < |t| && t[id].Live()
    ensures Find(t, t[id].key) == Some(id)
  {
  }

  lemma StampEvolves(t: Table, id: Id, at: int)
    ensures Evolves(t, Stamp(t, id, at))
  {
  }

  lemma SweepEvolves(t: Table, cutoff: int, at: int)
    ensures Evolves(t, Sweep(t, cutoff, at))
  {
  }

  lemma StampKeepsIndex(t: Table, id: Id, at: int)
    requires UniqueLive(t) && ActiveAgrees(t)
    ensures UniqueLive(Stamp(t, id, at)) && ActiveAgrees(Stamp(t, id, at))
  {
    var t' := Stamp(t, id, at);
    assert forall i | 0 <= i < |t| ::
      t'[i].key == t[i].key && t'[i].Live() == t[i].Live() && t'[i].active == t[i].active;
  }

  lemma SweepKeepsIndex(t: Table, cutoff: int, at: int)
    requires UniqueLive(t) && ActiveAgrees(t)
    ensures UniqueLive(Sweep(t, cutoff, at)) && ActiveAgrees(Sweep(t, cutoff, at))
  {
    var t' := Sweep(t, cutoff, at);
    assert forall i | 0 <= i < |t| :: t'[i] == SweepRow(t[i], cutoff, at);
  }

  lemma {:induction false} DeadRowsInsert(t: Table, url: string, key: string)
    ensures DeadRows(t + [NewRow(url, key)]) == DeadRows(t)
  {
    assert (t + [NewRow(url, key)])[..|t|] == t;
  }

  lemma {:induction false} DeadRowsStamp(t: Table, id: Id, at: int)
    ensures DeadRows(Stamp(t, id, at)) == DeadRows(t)
  {
    if t == [] {
    } else {
      var n := |t| - 1;
      DeadRowsStamp(t[..n], id, at);
      assert Stamp(t, id, at)[..n] == Stamp(t[..n], id, at);
    }
  }

  /** One sweep deletes as many rows as it reports. */
  lemma {:induction false} DeadRowsSweep(t: Table, cutoff: int, at: int)
    ensures DeadRows(Sweep(t, cutoff, at)) == DeadRows(t) + StaleRows(t, cutoff)
  {
    if t == [] {
    } else {
      var n := |t| - 1;
      DeadRowsSweep(t[..n], cutoff, at);
      assert Sweep(t, cutoff, at)[..n] == Sweep(t[..n], cutoff, at);
    }
  }

  datatype Tick = Tick(cutoff: int, at: int)

  function SweepAll(t: Table, ticks: seq<Tick>): Table
    decreases |ticks|
  {
    if ticks == [] then t
    else SweepAll(Sweep(t, ticks[0].cutoff, ticks[0].at), ticks[1..])
  }

  function ReportedBy(t: Table, ticks: seq<Tick>): nat
    decreases |ticks|
  {
    if ticks == [] then 0
    else StaleRows(t, ticks[0].cutoff) + ReportedBy(Sweep(t, ticks[0].cutoff, ticks[0].at), ticks[1..])
  }

  function LargestCutoff(ticks: seq<Tick>): int
    requires ticks != []
  {
    if |ticks| == 1 then ticks[0].cutoff else Max(ticks[0].cutoff, LargestCutoff(ticks[1..]))
  }

  lemma {:induction false} SweepAfterSweep(t: Table, first: Tick, cutoff: int)
    ensures StaleRows(t, first.cutoff) + StaleRows(Sweep(t, first.cutoff, first.at), cutoff)
         == StaleRows(t, Max(first.cutoff, cutoff))
  {
    if t == [] {
    } else {
      var n := |t| - 1;
      SweepAfterSweep(t[..n], first, cutoff);
      assert Sweep(t, first.cutoff, first.at)[..n] == Sweep(t[..n], first.cutoff, first.at);
    }
  }

  /** Any sequence of sweeps, overlapping leaders included, leaves the same rows live as one sweep at
      the largest cutoff, and together the sweeps report exactly what that one sweep would report. */
  lemma {:induction false} SweepsMerge(t: Table, ticks: seq<Tick>, at: int)
    requires ticks != []
    ensures |SweepAll(t, ticks)| == |t|
    ensures forall i | 0 <= i < |t| ::
      SweepAll(t, ticks)[i].Live() <==> Sweep(t, LargestCutoff(ticks), at)[i].Live()
    ensures ReportedBy(t, ticks) == StaleRows(t, LargestCutoff(ticks))
    decreases |ticks|
  {
    var first, rest := ticks[0], ticks[1..];
    var t1 := Sweep(t, first.cutoff, first.at);
    if rest == [] {
      assert SweepAll(t1, rest) == t1 && ReportedBy(t1, rest) == 0;
    } else {
      SweepsMerge(t1, rest, at);
      SweepAfterSweep(t, first, LargestCutoff(rest));
    }
  }
}
