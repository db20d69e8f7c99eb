/** ShortenURL running alone against the primary: what it computes, when it fails, and when calling it
    again gives the same answer. */
module SequentialShorten {
  import opened Prelude
  import opened UrlTable
  import opened ShortKeys
  import opened ShortenProtocol

  /** Another URL's live row has the key. */
  predicate Blocked(t: Table, url: string, key: string) {
    Find(t, key).Some? && t[Find(t, key).value].url != url
  }

  /** The first of the six looked-up slots, from `j` on, that is free or already the URL's own; the
      seventh slot if there is none. */
  function FirstOpen(hash: Hash, t: Table, url: string, j: nat): (r: nat)
    requires j <= 6
    ensures j <= r <= 6
    ensures forall i | j <= i < r :: Blocked(t, url, Slot(hash, url, i))
    ensures r < 6 ==> !Blocked(t, url, Slot(hash, url, r))
    decreases 6 - j
  {
    if j == 6 || !Blocked(t, url, Slot(hash, url, j)) then j else FirstOpen(hash, t, url, j + 1)
  }

  datatype Answer = Answer(table: Table, pc: Pc)

  /** What a call does that has settled on slot `j`, having read `view` while the primary is `t`. The seventh
      slot is never looked up, so a row found there is a conflict even if it is the URL's own. */
  function AnswerAt(hash: Hash, view: Table, t: Table, url: string, j: nat): Answer
    requires j <= 6
  {
    var key := Slot(hash, url, j);
    var seen := if j < 6 then Find(view, key) else None;
    if seen.Some? then Answer(t, Done(seen.value, key))
    else if Find(t, key).Some? then Answer(t, Failed(Conflict))
    else Answer(t + [NewRow(url, key)], Done(|t|, key))
  }

  /** The specification: settle on the first open slot, return its row or insert one. */
  function Expected(hash: Hash, t: Table, url: string): Answer {
    Lagged(hash, t, t, url)
  }

  /** The specification for a replica that lags: slots are judged by its view, inserts by the primary. */
  function Lagged(hash: Hash, view: Table, t: Table, url: string): Answer {
    AnswerAt(hash, view, t, url, FirstOpen(hash, view, url, 0))
  }

  // ------------------------------------------------------------------ the protocol alone refines it

  /** The next step of one call, without faults, its lookups served by one chosen state. */
  function OwnStep(s: Sys, p: Pid, seen: Option<nat>): Action
    requires p in s.procs
  {
    match s.procs[p].pc
    case Lookup(_, _) => LookupStep(p, seen, NoFault)
    case Create(_, _) => CreateStep(p, NoFault)
    case _ => LogStep(p, NoFault)
  }

  function Solo(hash: Hash, s: Sys, p: Pid, seen: Option<nat>, steps: nat): Sys
    decreases steps
  {
    if steps == 0 || p !in s.procs then s
    else Solo(hash, Next(hash, s, OwnStep(s, p, seen)), p, seen, steps - 1)
  }

  ghost predicate Ends(s: Sys, p: Pid, url: string, answer: Answer) {
    p in s.procs && s.procs[p] == Proc(url, answer.pc) && s.Primary() == answer.table
  }

  lemma {:induction false} SoloRests(hash: Hash, s: Sys, p: Pid, seen: Option<nat>, steps: nat)
    requires p in s.procs && (s.procs[p].pc.Done? || s.procs[p].pc.Failed?)
    ensures Solo(hash, s, p, seen, steps) == s
    decreases steps
  {
    if steps == 0 {
    } else {
      assert Next(hash, s, OwnStep(s, p, seen)) == s;
      SoloRests(hash, s, p, seen, steps - 1);
    }
  }

  lemma SoloLogs(hash: Hash, s: Sys, p: Pid, url: string, seen: Option<nat>, steps: nat)
    requires p in s.procs && s.procs[p].url == url && s.procs[p].pc.Log? && steps > 0
    ensures Ends(Solo(hash, s, p, seen, steps), p, url,
                 Answer(s.Primary(), Done(s.procs[p].pc.id, s.procs[p].pc.key)))
  {
    var s1 := Next(hash, s, OwnStep(s, p, seen));
    assert s1.Primary() == s.Primary();
    SoloRests(hash, s1, p, seen, steps - 1);
  }

  lemma SoloCreates(hash: Hash, s: Sys, p: Pid, url: string, j: nat, view: Table, seen: Option<nat>, steps: nat)
    requires p in s.procs && j <= 6 && s.procs[p] == Proc(url, Create(j, Slot(hash, url, j))) && steps > 1
    requires j < 6 ==> Find(view, Slot(hash, url, j)).None?
    ensures Ends(Solo(hash, s, p, seen, steps), p, url, AnswerAt(hash, view, s.Primary(), url, j))
  {
    var s1 := Next(hash, s, OwnStep(s, p, seen));
    assert s1.Primary() == Insert(s.Primary(), NewRow(url, Slot(hash, url, j)), NoFault);
    if s1.procs[p].pc.Log? {
      SoloLogs(hash, s1, p, url, seen, steps - 1);
    } else {
      SoloRests(hash, s1, p, seen, steps - 1);
    }
  }

  /** One lookup without faults. */
  lemma OwnLookup(hash: Hash, s: Sys, p: Pid, url: string, j: nat, seen: Option<nat>)
    requires p in s.procs && j <= 5 && s.procs[p] == Proc(url, Lookup(j, Slot(hash, url, j)))
    ensures var s', view, key := Next(hash, s, OwnStep(s, p, seen)), Seen(s, seen), Slot(hash, url, j);
      && s'.history == s.history && p in s'.procs
      && s'.procs[p] == Proc(url,
           if Blocked(view, url, key) then
             if j < 5 then Lookup(j + 1, Slot(hash, url, j + 1)) else Create(6, Slot(hash, url, 6))
           else if Find(view, key).Some? then Log(Find(view, key).value, key)
           else Create(j, key))
  {
    hide Find, ShortKey, Salted;
  }

  lemma SoloStep(hash: Hash, s: Sys, p: Pid, seen: Option<nat>, steps: nat)
    requires p in s.procs && steps > 0
    ensures Solo(hash, s, p, seen, steps) == Solo(hash, Next(hash, s, OwnStep(s, p, seen)), p, seen, steps - 1)
  {
  }

  lemma FirstOpenStep(hash: Hash, t: Table, url: string, j: nat)
    requires j < 6
    ensures FirstOpen(hash, t, url, j) ==
      if !Blocked(t, url, Slot(hash, url, j)) then j else FirstOpen(hash, t, url, j + 1)
    ensures FirstOpen(hash, t, url, 6) == 6
  {
    hide Blocked, Slot;
  }

  lemma OwnRowAnswers(hash: Hash, view: Table, t: Table, url: string, j: nat)
    requires j < 6
    ensures var key := Slot(hash, url, j);
      Find(view, key).Some? ==> AnswerAt(hash, view, t, url, j) == Answer(t, Done(Find(view, key).value, key))
  {
    hide Find, Slot;
  }

  lemma SameHistory(s: Sys, s': Sys, seen: Option<nat>)
    requires s'.history == s.history
    ensures s'.Primary() == s.Primary() && Seen(s', seen) == Seen(s, seen)
  {
  }

  /** The call settles on the slot it looks up. */
  lemma SoloSettles(hash: Hash, s: Sys, p: Pid, url: string, j: nat, seen: Option<nat>, steps: nat)
    requires p in s.procs && j <= 5 && s.procs[p] == Proc(url, Lookup(j, Slot(hash, url, j))) && steps >= 3
    requires !Blocked(Seen(s, seen), url, Slot(hash, url, j))
    ensures Ends(Solo(hash, s, p, seen, steps), p, url, AnswerAt(hash, Seen(s, seen), s.Primary(), url, j))
  {
    hide Find, Slot, Next, Solo, OwnStep, Blocked, FirstOpen, AnswerAt, Ends, Seen;
    var view, t, key := Seen(s, seen), s.Primary(), Slot(hash, url, j);
    var s1 := Next(hash, s, OwnStep(s, p, seen));
    OwnLookup(hash, s, p, url, j, seen);
    SoloStep(hash, s, p, seen, steps);
    OwnRowAnswers(hash, view, t, url, j);
    SameHistory(s, s1, seen);
    if Find(view, key).Some? {
      SoloLogs(hash, s1, p, url, seen, steps - 1);
    } else {
      SoloCreates(hash, s1, p, url, j, view, seen, steps - 1);
    }
  }

  lemma {:induction false} SoloLooksUp(hash: Hash, s: Sys, p: Pid, url: string, j: nat, seen: Option<nat>, steps: nat)
    requires p in s.procs && j <= 5 && s.procs[p] == Proc(url, Lookup(j, Slot(hash, url, j)))
    requires steps >= 8 - j
    ensures var view, t := Seen(s, seen), s.Primary();
      Ends(Solo(hash, s, p, seen, steps), p, url, AnswerAt(hash, view, t, url, FirstOpen(hash, view, url, j)))
    decreases 6 - j
  {
    hide Find, Slot, Next, Solo, OwnStep, Blocked, FirstOpen, AnswerAt, Ends, Seen;
    var view, key := Seen(s, seen), Slot(hash, url, j);
    FirstOpenStep(hash, view, url, j);
    if !Blocked(view, url, key) {
      SoloSettles(hash, s, p, url, j, seen, steps);
    } else {
      var s1 := Next(hash, s, OwnStep(s, p, seen));
      OwnLookup(hash, s, p, url, j, seen);
      SoloStep(hash, s, p, seen, steps);
      SameHistory(s, s1, seen);
      if j < 5 {
        SoloLooksUp(hash, s1, p, url, j + 1, seen, steps - 1);
      } else {
        SoloCreates(hash, s1, p, url, 6, view, seen, steps - 1);
      }
    }
  }

  /** A ShortenURL call that runs alone and meets no fault, its lookups served by the primary or by one
      earlier state, ends within eight steps with the specified table and answer. */
  lemma SoloRefines(hash: Hash, s: Sys, p: Pid, url: string, seen: Option<nat>)
    requires p !in s.procs
    ensures Ends(Solo(hash, Next(hash, s, Begin(p, url)), p, seen, 8), p, url,
                 Lagged(hash, Seen(s, seen), s.Primary(), url))
  {
    var s1 := Next(hash, s, Begin(p, url));
    assert s1.history == s.history;
    SoloLooksUp(hash, s1, p, url, 0, seen, 8);
  }

  // ------------------------------------------------------------------ what the specification promises

  /** Without faults ShortenURL fails exactly when other URLs hold all six looked-up slots and the
      seventh slot is occupied, by whomever. */
  lemma FailsIff(hash: Hash, t: Table, url: string)
    ensures Expected(hash, t, url).pc.Failed? <==>
      (forall j | 0 <= j < 6 :: Blocked(t, url, Slot(hash, url, j))) && Find(t, Slot(hash, url, 6)).Some?
  {
    var r := FirstOpen(hash, t, url, 0);
    assert r < 6 ==> !Blocked(t, url, Slot(hash, url, r));
  }

  /** Shortening a URL that already has a live row gives back that row exactly when the row is on one of
      the six looked-up slots and other URLs hold every earlier one. */
  lemma ReturnsRowIff(hash: Hash, t: Table, url: string, id: Id)
    requires UniqueLive(t) && id < |t| && t[id].Live() && t[id].url == url
    ensures Expected(hash, t, url) == Answer(t, Done(id, t[id].key)) <==>
      exists j | 0 <= j < 6 ::
        t[id].key == Slot(hash, url, j) && forall i | 0 <= i < j :: Blocked(t, url, Slot(hash, url, i))
  {
    var r := FirstOpen(hash, t, url, 0);
    FindLive(t, id);
    if Expected(hash, t, url) == Answer(t, Done(id, t[id].key)) {
      assert r < 6 && t[id].key == Slot(hash, url, r);
    }
    if j :| 0 <= j < 6 && t[id].key == Slot(hash, url, j) &&
            forall i | 0 <= i < j :: Blocked(t, url, Slot(hash, url, i)) {
      assert !Blocked(t, url, Slot(hash, url, j));
      assert r == j;
    }
  }

  /** A call adds a row exactly when some slot is free and other URLs hold every earlier one. For a URL
      whose live row sits behind a slot freed by cleanup this is a second live row. */
  lemma AddsRowIff(hash: Hash, t: Table, url: string)
    ensures Expected(hash, t, url).table != t <==>
      exists j | 0 <= j <= 6 ::
        Find(t, Slot(hash, url, j)).None? && forall i | 0 <= i < j :: Blocked(t, url, Slot(hash, url, i))
  {
    var r := FirstOpen(hash, t, url, 0);
    if Expected(hash, t, url).table != t {
      assert Find(t, Slot(hash, url, r)).None?;
    }
    if j :| 0 <= j <= 6 && Find(t, Slot(hash, url, j)).None? &&
            forall i | 0 <= i < j :: Blocked(t, url, Slot(hash, url, i)) {
      assert !Blocked(t, url, Slot(hash, url, j));
      assert r == j;
      assert |Expected(hash, t, url).table| == |t| + 1;
    }
  }

  lemma FindAfterInsert(t: Table, url: string, key: string, other: string)
    requires Find(t, key).None?
    ensures Find(t + [NewRow(url, key)], other) == if other == key then Some(|t|) else Find(t, other)
  {
    assert (t + [NewRow(url, key)])[..|t|] == t;
  }

  /** Repeating a call that returned a key gives the same key and changes nothing exactly when one of the
      six looked-up slots was free or already the URL's own. Otherwise the row went to the seventh slot
      and the repetition fails with a conflict. */
  lemma RepeatsIff(hash: Hash, t: Table, url: string)
    requires Expected(hash, t, url).pc.Done?
    ensures var first := Expected(hash, t, url);
      var again := Expected(hash, first.table, url);
      && (again == first <==> exists j | 0 <= j < 6 :: !Blocked(t, url, Slot(hash, url, j)))
      && (again != first ==> again == Answer(first.table, Failed(Conflict)))
  {
    var first := Expected(hash, t, url);
    var r := FirstOpen(hash, t, url, 0);
    var t', key := first.table, Slot(hash, url, r);
    assert Find(t', key).Some? by {
      if Find(t, key).None? {
        FindAfterInsert(t, url, key, key);
      }
    }
    forall i | 0 <= i < r
      ensures Blocked(t', url, Slot(hash, url, i))
    {
      if Find(t, key).None? {
        FindAfterInsert(t, url, key, Slot(hash, url, i));
      }
    }
    assert r < 6 ==> !Blocked(t', url, key) by {
      if Find(t, key).None? {
        FindAfterInsert(t, url, key, key);
      }
    }
    var r' := FirstOpen(hash, t', url, 0);
    assert r' == r;
    if Find(t, key).None? {
      FindAfterInsert(t, url, key, key);
    }
  }

  /** For every hash, the salted text of one URL is itself a URL that starts on the first one's slot. */
  lemma SaltedUrlSharesSlot(hash: Hash, url: string, j: nat)
    requires j > 0
    ensures Slot(hash, Salted(url, j), 0) == Slot(hash, url, j) && Salted(url, j) != url
  {
    assert |Salted(url, j)| > |url|;
  }

  // ------------------------------------------------------------------ faults and changing views

  /** One lookup of a call: the state that serves it and its fault. */
  datatype Served = Served(view: Table, fault: Fault)

  /** Lookup `j` succeeds and finds another URL's row. */
  predicate MovesOn(hash: Hash, served: seq<Served>, url: string, j: nat)
    requires j < |served|
  {
    served[j].fault == NoFault && Blocked(served[j].view, url, Slot(hash, url, j))
  }

  /** The first slot, from `j` on, at which the lookups stop. */
  function Stop(hash: Hash, served: seq<Served>, url: string, j: nat): (r: nat)
    requires |served| == 6 && j <= 6
    ensures j <= r <= 6
    decreases 6 - j
  {
    if j == 6 || !MovesOn(hash, served, url, j) then j else Stop(hash, served, url, j + 1)
  }

  lemma {:induction false} StopIsFirst(hash: Hash, served: seq<Served>, url: string, j: nat)
    requires |served| == 6 && j <= 6
    ensures var r := Stop(hash, served, url, j);
      && (forall i | j <= i < r :: MovesOn(hash, served, url, i))
      && (r < 6 ==> !MovesOn(hash, served, url, r))
    decreases 6 - j
  {
    hide MovesOn;
    if j == 6 || !MovesOn(hash, served, url, j) {
    } else {
      StopIsFirst(hash, served, url, j + 1);
    }
  }

  function OutcomeAt(hash: Hash, served: seq<Served>, create: Fault, t: Table, url: string, j: nat): Answer
    requires |served| == 6 && j <= 6
  {
    var key := Slot(hash, url, j);
    var row := NewRow(url, key);
    if j < 6 && served[j].fault != NoFault then Answer(t, Failed(LookupFailed))
    else if j < 6 && Find(served[j].view, key).Some? then Answer(t, Done(Find(served[j].view, key).value, key))
    else if create != NoFault then Answer(Insert(t, row, create), Failed(CreateFailed))
    else if Find(t, key).Some? then Answer(t, Failed(Conflict))
    else Answer(t + [row], Done(|t|, key))
  }

  /** What an undisturbed call does whose lookups are served so, whose insert meets `create`, on primary `t`. */
  function Outcome(hash: Hash, served: seq<Served>, create: Fault, t: Table, url: string): Answer
    requires |served| == 6
  {
    OutcomeAt(hash, served, create, t, url, Stop(hash, served, url, 0))
  }

  ghost predicate Occupied(t: Table, key: string) {
    exists i :: 0 <= i < |t| && t[i].key == key && t[i].deletedAt.None?
  }

  /** Every outcome, by what the call meets at the first slot `j` at which it does not move on: a failed
      lookup, its own row, a failed insert with or without effect, an occupied key, or a free one. */
  lemma OutcomeCases(hash: Hash, served: seq<Served>, create: Fault, t: Table, url: string, j: nat)
    requires |served| == 6 && j <= 6
    requires forall i | 0 <= i < j :: MovesOn(hash, served, url, i)
    ensures var outcome, key := Outcome(hash, served, create, t, url), Slot(hash, url, j);
      var added := t + [Row(url, key, ZERO_TIME, true, None)];
      && (j < 6 && served[j].fault != NoFault ==> outcome == Answer(t, Failed(LookupFailed)))
      && (j < 6 && served[j].fault == NoFault ==>
            match Select(served[j].view, key)
            case Found(id, row) => row.url == url ==> outcome == Answer(t, Done(id, key))
            case _ => true)
      && (j == 6 || (served[j].fault == NoFault && !Occupied(served[j].view, key)) ==>
            outcome ==
              if create == Lost then Answer(t, Failed(CreateFailed))
              else if create == Ambiguous then Answer(if Occupied(t, key) then t else added, Failed(CreateFailed))
              else if Occupied(t, key) then Answer(t, Failed(Conflict))
              else Answer(added, Done(|t|, key)))
  {
    hide Slot;
    var key := Slot(hash, url, j);
    FreeKey(t, key);
    var r := Stop(hash, served, url, 0);
    StopIsFirst(hash, served, url, 0);
    if j < 6 {
      FreeKey(served[j].view, key);
    }
    hide Find;
    assert j < 6 && r != j ==> MovesOn(hash, served, url, j);
    assert r < 6 ==> !MovesOn(hash, served, url, r);
    assert Occupied(t, key) <==> Find(t, key).Some?;
  }

  /** Without faults and with one view this is the specification. */
  lemma {:induction false} StopIsFirstOpen(hash: Hash, served: seq<Served>, view: Table, url: string, j: nat)
    requires |served| == 6 && j <= 6 && forall i | 0 <= i < 6 :: served[i] == Served(view, NoFault)
    ensures Stop(hash, served, url, j) == FirstOpen(hash, view, url, j)
    decreases 6 - j
  {
    hide Slot, Find;
    if j == 6 {
    } else {
      StopIsFirstOpen(hash, served, view, url, j + 1);
    }
  }

  lemma QuietOutcome(hash: Hash, served: seq<Served>, view: Table, t: Table, url: string)
    requires |served| == 6 && forall i | 0 <= i < 6 :: served[i] == Served(view, NoFault)
    ensures Outcome(hash, served, NoFault, t, url) == Lagged(hash, view, t, url)
  {
    hide Slot, Find;
    StopIsFirstOpen(hash, served, view, url, 0);
  }
}
