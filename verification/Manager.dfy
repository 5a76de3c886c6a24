/** internal/manager/manager.go: one tunnel at a time, under any pattern of failures of the
    backends, of the store and of the removal of execution copies. */
module Manager {
  import opened Contracts
  import opened Environment

  datatype Lifecycle =
    | Disconnected | Active | Starting | Switching | Restoring | Disconnecting | Failing | Conflict

  datatype Truth = Known | Uncertain

  function RecoveryTruth(cleanupErr: Failure, restoreErr: Failure, repairErr: Failure, reconcileErr: Failure): Truth {
    if cleanupErr != {} || restoreErr != {} || repairErr != {} || reconcileErr != {} then Uncertain else Known
  }

  function LifecycleForTruth(truth: Truth): Lifecycle {
    if truth == Uncertain then Conflict else Failing
  }

  /** The desired-state promise: what is up is the desired profile, and a recorded connection
      with nothing up has its exit report still to be handled. */
  ghost predicate Faithful(r: Record, up: set<Id>, exits: seq<Exit>) {
    && (forall p :: p in up ==> p == r.desired)
    && (r.connectedAt != 0 && up == {} ==> Queued(exits, r.desired))
  }

  /** The copies of the table's entry for one profile. */
  function Entry(table: map<Id, seq<Path>>, id: Id): seq<Path> {
    if id in table then table[id] else []
  }

  /** One copy was appended to one entry, and the other entries are the same. */
  ghost predicate PutBack(table: map<Id, seq<Path>>, table': map<Id, seq<Path>>, id: Id, path: Path) {
    && Entry(table', id) == Entry(table, id) + [path]
    && forall other :: other != id ==> Entry(table', other) == Entry(table, other)
  }

  predicate NoRepeats(s: seq<Path>) {
    forall i, j :: 0 <= i < j < |s| ==> s[i] != s[j]
  }

  /** Every outstanding copy, except for those in `pending`, is in the table exactly once and
      under its own profile; the table holds nothing else and no empty entry. */
  ghost predicate Tracked(table: map<Id, seq<Path>>, copies: map<Path, Id>, pending: set<Path>) {
    && (forall id :: id in table ==> table[id] != [] && NoRepeats(table[id]))
    && (forall id, p :: id in table && p in table[id] ==> p in copies && copies[p] == id && p !in pending)
    && (forall p :: p in copies && p !in pending ==> p in Entry(table, copies[p]))
  }

  function Held(paths: seq<Path>): set<Path> {
    set p | p in paths
  }

  lemma HeldStep(paths: seq<Path>, k: nat)
    requires NoRepeats(paths) && k < |paths|
    ensures paths[k] in paths[k..] && paths[k] !in paths[k + 1..]
    ensures Held(paths[k..]) - {paths[k]} == Held(paths[k + 1..])
    ensures forall p :: p in paths[k + 1..] ==> p in paths[k..]
  {
    assert paths[k..] == [paths[k]] + paths[k + 1..];
  }

  /** No copy appeared, and none but those of `id` was removed. */
  ghost predicate OthersKept(id: Id, copies: map<Path, Id>, copies': map<Path, Id>) {
    && (forall p :: p in copies' ==> p in copies && copies'[p] == copies[p])
    && (forall p :: p in copies && copies[p] != id ==> p in copies')
  }

  /** A pending copy put in the table under its profile is tracked there. */
  lemma TrackAdded(table: map<Id, seq<Path>>, copies: map<Path, Id>, pending: set<Path>, id: Id, path: Path)
    requires Tracked(table, copies, pending) && path in pending && path in copies && copies[path] == id
    ensures Tracked(table[id := Entry(table, id) + [path]], copies, pending - {path})
  {
    assert path !in Entry(table, id);
  }

  /** A pending copy proved removed needs no tracking. */
  lemma TrackCleaned(table: map<Id, seq<Path>>, copies: map<Path, Id>, pending: set<Path>, path: Path)
    requires Tracked(table, copies, pending) && path in pending
    ensures Tracked(table, copies - {path}, pending - {path})
  {
  }

  /** A table that has no copy of a profile but one that is gone has no entry for it. */
  lemma NoneLeft(table: map<Id, seq<Path>>, copies: map<Path, Id>, id: Id, path: Path)
    requires Tracked(table, copies, {}) && forall p :: p in Entry(table, id) ==> p == path
    ensures path !in copies ==> id !in table
  {
    if id in table { assert table[id][0] in Entry(table, id); }
  }

  /** A copy just prepared is pending. */
  lemma TrackPrepared(table: map<Id, seq<Path>>, copies: map<Path, Id>, id: Id, path: Path)
    requires Tracked(table, copies, {}) && path !in copies
    ensures Tracked(table, copies[path := id], {path})
  {
  }

  /** The table after copies of one profile were taken out of it. */
  ghost predicate TakenOut(table: map<Id, seq<Path>>, table': map<Id, seq<Path>>, taken: seq<Path>, id: Id) {
    && (forall other :: other != id ==> (other in table <==> other in table'))
    && (forall other :: other != id && other in table ==> table'[other] == table[other])
    && (id in table' ==> table'[id] != [] && NoRepeats(table'[id]))
    && (forall p :: p in Entry(table, id) <==> p in taken || p in Entry(table', id))
    && (forall p :: p in taken ==> p !in Entry(table', id))
  }

  lemma TakenHeld(table: map<Id, seq<Path>>, copies: map<Path, Id>, table': map<Id, seq<Path>>, taken: seq<Path>,
                  id: Id, p: Path)
    requires Tracked(table, copies, {}) && TakenOut(table, table', taken, id)
    ensures p in taken ==> p in copies && copies[p] == id
    ensures p in copies && p !in taken ==> p in Entry(table', copies[p])
  {
    assert p in taken ==> p in Entry(table, id);
    assert p in copies ==> p in Entry(table, copies[p]);
  }

  lemma KeptTracked(table: map<Id, seq<Path>>, copies: map<Path, Id>, table': map<Id, seq<Path>>, taken: seq<Path>,
                    id: Id, other: Id, p: Path)
    requires Tracked(table, copies, {}) && TakenOut(table, table', taken, id)
    requires other in table' && p in table'[other]
    ensures p in copies && copies[p] == other && p !in taken
  {
    assert p in Entry(table, other);
    assert p in taken ==> p in Entry(table, id);
  }

  /** Copies taken out of the table become pending. */
  lemma TrackTaken(table: map<Id, seq<Path>>, copies: map<Path, Id>, table': map<Id, seq<Path>>, taken: seq<Path>,
                   id: Id)
    requires Tracked(table, copies, {}) && TakenOut(table, table', taken, id)
    ensures Tracked(table', copies, Held(taken))
    ensures forall p :: p in taken ==> p in copies && copies[p] == id
  {
    forall p
      ensures p in taken ==> p in copies && copies[p] == id
      ensures p in copies && p !in Held(taken) ==> p in Entry(table', copies[p])
    {
      TakenHeld(table, copies, table', taken, id, p);
    }
    forall other, p | other in table' && p in table'[other]
      ensures p in copies && copies[p] == other && p !in Held(taken)
    {
      KeptTracked(table, copies, table', taken, id, other, p);
    }
  }

  /** No action of the run had two tunnels up at any instant. */
  ghost predicate OneTunnel(acts: seq<Act>) {
    forall a :: a in acts ==> AtMostOne(a.during)
  }

  /** No start of the run left its cleanup unproved. */
  ghost predicate Proved(acts: seq<Act>) {
    forall a :: a in acts && a.Started? ==> CleanupUnproved !in a.errs
  }

  /** No stop of the run failed. */
  ghost predicate StopsProved(acts: seq<Act>) {
    forall a :: a in acts && a.Stopped? ==> a.errs == {}
  }

  /** The run began with a start of this profile whose cleanup its backend did not prove. */
  ghost predicate BeganUnproved(acts: seq<Act>, id: Id) {
    acts != [] && acts[0].Started? && acts[0].id == id && CleanupUnproved in acts[0].errs
  }

  ghost predicate NoStart(acts: seq<Act>) {
    forall a :: a in acts ==> !a.Started?
  }

  /** A start whose cleanup was not proved ends the run: no backend is asked for anything after it.
      And nothing is started after a stop that failed. */
  ghost predicate EndsUnproved(acts: seq<Act>) {
    && (forall k :: 0 <= k < |acts| - 1 && acts[k].Started? ==> CleanupUnproved !in acts[k].errs)
    && (forall j, k :: 0 <= j < k < |acts| && acts[j].Stopped? && acts[k].Started? ==> acts[j].errs == {})
  }

  lemma NoStartEnds(acts: seq<Act>)
    requires NoStart(acts)
    ensures EndsUnproved(acts)
  {
    forall k | 0 <= k < |acts| ensures !acts[k].Started? { assert acts[k] in acts; }
  }

  /** Two stretches of actions, one after the other. */
  lemma Joined(trace: seq<Act>, first: seq<Act>, second: seq<Act>)
    ensures (trace + first) + second == trace + (first + second)
    ensures OneTunnel(first) && OneTunnel(second) ==> OneTunnel(first + second)
    ensures Proved(first) && StopsProved(first) && EndsUnproved(second) ==> EndsUnproved(first + second)
    ensures Proved(first) && EndsUnproved(first) && NoStart(second) ==> EndsUnproved(first + second)
  {
  }

  lemma WithinOne(acts: seq<Act>, up: set<Id>)
    requires forall a :: a in acts ==> a.during <= up
    ensures AtMostOne(up) ==> OneTunnel(acts)
  {
  }

  lemma TwoListed(active: seq<Id>)
    ensures |active| > 1 && NoDuplicates(active) ==> exists a, b :: a in active && b in active && a != b
  {
    if |active| > 1 && NoDuplicates(active) {
      assert active[0] in active && active[1] in active && active[0] != active[1];
    }
  }

  lemma OneListed(a: seq<Id>, b: seq<Id>, up: set<Id>)
    requires NoDuplicates(a) && NoDuplicates(b) && AtMostOne(up)
    requires (forall p :: p in a || p in b ==> p in up) && forall p :: p in a ==> p !in b
    ensures |a + b| <= 1
  {
    TwoListed(a);
    TwoListed(b);
    assert (a != [] ==> a[0] in a) && (b != [] ==> b[0] in b);
  }

  /** What the desired-state promise says of a moment when nothing is up and `previous` was the
      observed tunnel. */
  ghost predicate Foreseen(previous: Id, record: Record, exits: seq<Exit>) {
    && (previous != "" ==> previous == record.desired)
    && (previous == "" && record.connectedAt != 0 ==> Queued(exits, record.desired))
  }

  lemma ForeseenAfterObserving(record: Record, active: seq<Id>, up: set<Id>, exits: seq<Exit>, up': set<Id>,
                               exits': seq<Exit>, told: set<Id>)
    requires OnlyExits(up, exits, up', exits', told) && |active| <= 1 && "" !in up
    requires (forall p :: p in active ==> p in up) && (forall p :: p in up' ==> p in active)
    ensures Faithful(record, up, exits) && up !! told ==>
      Foreseen(if |active| == 1 then active[0] else "", record, exits')
  {
    if |active| == 1 {
      assert active[0] in active;
    } else {
      assert up' == {};
      if up != {} {
        var p :| p in up;
        assert p !in up';
        assert up !! told ==> p !in told;
      }
    }
  }

  class Manager {
    const net: Network
    const lib: Ledger
    var lifecycle: Lifecycle
    var subject: Id
    var executions: map<Id, seq<Path>>
    var gateFree: bool

    ghost predicate Valid()
      reads this`executions, net, lib
    {
      && net.Valid()
      && lib.Valid()
      && net.up <= lib.record.profiles
      && Tracked(executions, lib.copies, {})
    }

    /** Unless a conflict is reported, the desired-state promise holds, and nothing that is up was
        told to stop. */
    ghost predicate Settled()
      reads this`lifecycle, net, lib
    {
      lifecycle != Conflict ==> Faithful(lib.record, net.up, net.exits) && net.up !! net.told
    }

    /** There is a backend for every protocol represented in the library. */
    ghost predicate Equipped(profiles: set<Id>) {
      forall p :: p in profiles ==> net.protocolOf(p) in net.backends
    }

    /** The gate is free and no conflict is reported. */
    predicate Ready()
      reads this`gateFree, this`lifecycle
    {
      gateFree && lifecycle != Conflict
    }

    /** The profile's protocol has no backend, or its tooling does not answer. */
    predicate Unanswering(id: Id) {
      net.protocolOf(id) !in net.backends || net.protocolOf(id) in net.silent
    }

    ghost predicate Connectable(id: Id, profiles: set<Id>, up: set<Id>) {
      id in profiles && Equipped(profiles) && AtMostOne(up)
    }

    ghost function Faults(): nat
      reads net, lib
    {
      net.faults + lib.faults
    }

    constructor (net: Network, lib: Ledger)
      requires net.Valid() && lib.Valid() && net.up <= lib.record.profiles && lib.copies == map[]
      ensures Valid() && this.net == net && this.lib == lib
      ensures lifecycle == Disconnected && gateFree && executions == map[]
    {
      this.net, this.lib := net, lib;
      lifecycle, subject, executions, gateFree := Disconnected, "", map[], true;
    }

    method SetLifecycle(state: Lifecycle, profile: Id)
      modifies this`lifecycle, this`subject
      ensures lifecycle == state && subject == profile
    {
      lifecycle, subject := state, profile;
    }

    method SetFailure(truth: Truth, profile: Id)
      modifies this`lifecycle, this`subject
      ensures lifecycle == (if truth == Uncertain then Conflict else Failing) && subject == profile
    {
      SetLifecycle(LifecycleForTruth(truth), profile);
    }

    // ----- execution copies ---------------------------------------------------------------

    /** A pending copy is put in the table: it is then tracked exactly once, under its own profile, and
        the table's other copies are as before. */
    method AddExecution(id: Id, path: Path, ghost pending: set<Path>)
      requires Tracked(executions, lib.copies, pending)
      requires path in pending && path in lib.copies && lib.copies[path] == id
      modifies this`executions
      ensures Tracked(executions, lib.copies, pending - {path})
      ensures PutBack(old(executions), executions, id, path)
    {
      TrackAdded(executions, lib.copies, pending, id, path);
      executions := executions[id := Entry(executions, id) + [path]];
    }

    /** Takes every copy of a profile out of the table, except those at `except`. */
    method TakeExecutions(id: Id, except: Path) returns (taken: seq<Path>)
      requires NoRepeats(Entry(executions, id)) && (id in executions ==> executions[id] != [])
      modifies this`executions
      ensures NoRepeats(taken) && NoRepeats(Entry(executions, id))
      ensures forall p :: p in taken <==> p in Entry(old(executions), id) && !(except != NoPath && p == except)
      ensures forall p :: p in Entry(executions, id) <==>
        p in Entry(old(executions), id) && except != NoPath && p == except
      ensures executions == old(executions) - {id}
              || (executions == old(executions)[id := Entry(executions, id)] && executions[id] != [])
      ensures except == NoPath ==> executions == old(executions) - {id}
    {
      var current := Entry(executions, id);
      taken := [];
      var kept: seq<Path> := [];
      for k := 0 to |current|
        invariant NoRepeats(taken) && NoRepeats(kept)
        invariant forall p :: p in taken <==> p in current[..k] && !(except != NoPath && p == except)
        invariant forall p :: p in kept <==> p in current[..k] && except != NoPath && p == except
      {
        assert current[..k + 1] == current[..k] + [current[k]];
        assert current[k] !in current[..k];
        if except != NoPath && current[k] == except {
          kept := kept + [current[k]];
        } else {
          taken := taken + [current[k]];
        }
      }
      assert current[..|current|] == current;
      assert kept != [] ==> kept[0] in kept;
      executions := if kept == [] then executions - {id} else executions[id := kept];
    }

    /** Removes one pending copy, or puts it back in the table when its removal fails. */
    method CleanOne(id: Id, path: Path, ghost pending: set<Path>) returns (errs: Failure)
      requires lib.Valid() && Tracked(executions, lib.copies, pending)
      requires path in pending && path in lib.copies && lib.copies[path] == id
      modifies this`executions, lib`copies, lib`faults, lib`calls
      ensures lib.Valid() && Tracked(executions, lib.copies, pending - {path}) && StateConflict !in errs
      ensures errs == {} ==> executions == old(executions) && lib.copies == old(lib.copies) - {path}
      ensures errs != {} ==> PutBack(old(executions), executions, id, path) && lib.copies == old(lib.copies)
      ensures old(lib.faults) <= lib.faults && (lib.faults == old(lib.faults) ==> errs == {})
    {
      errs := lib.Cleanup(path);
      if errs != {} {
        AddExecution(id, path, pending);
      } else {
        TrackCleaned(executions, old(lib.copies), pending, path);
      }
    }

    /** The state of the removal of taken copies, from the k-th on. */
    ghost predicate Cleaning(id: Id, taken: seq<Path>, k: nat, before: map<Path, Id>)
      reads this`executions, lib
    {
      && lib.Valid() && k <= |taken| && Tracked(executions, lib.copies, Held(taken[k..]))
      && (forall p :: p in taken[k..] ==> p in lib.copies && lib.copies[p] == id)
      && OthersKept(id, before, lib.copies)
    }

    method CleanNext(id: Id, taken: seq<Path>, k: nat, ghost before: map<Path, Id>) returns (errs: Failure)
      requires NoRepeats(taken) && k < |taken| && Cleaning(id, taken, k, before)
      modifies this`executions, lib`copies, lib`faults, lib`calls
      ensures Cleaning(id, taken, k + 1, before)
      ensures errs == {} ==> executions == old(executions)
      ensures old(lib.faults) <= lib.faults && (lib.faults == old(lib.faults) ==> errs == {})
    {
      HeldStep(taken, k);
      errs := CleanOne(id, taken[k], Held(taken[k..]));
    }

    /** Removes the taken copies one by one; a copy whose removal fails goes back in the table. */
    method CleanTaken(id: Id, taken: seq<Path>) returns (errs: Failure)
      requires lib.Valid() && NoRepeats(taken) && Tracked(executions, lib.copies, Held(taken))
      requires forall p :: p in taken ==> p in lib.copies && lib.copies[p] == id
      modifies this`executions, lib`copies, lib`faults, lib`calls
      ensures lib.Valid() && Tracked(executions, lib.copies, {})
      ensures OthersKept(id, old(lib.copies), lib.copies)
      ensures errs == {} ==> executions == old(executions)
      ensures old(lib.faults) <= lib.faults && (lib.faults == old(lib.faults) ==> errs == {})
    {
      errs := {};
      assert taken[0..] == taken;
      for k := 0 to |taken|
        invariant Cleaning(id, taken, k, old(lib.copies))
        invariant errs == {} ==> executions == old(executions)
        invariant old(lib.faults) <= lib.faults && (lib.faults == old(lib.faults) ==> errs == {})
      {
        var err := CleanNext(id, taken, k, old(lib.copies));
        errs := errs + err;
      }
      assert Held(taken[|taken|..]) == {};
    }

    /** cleanupExecutions: nil leaves only the excepted copy of the profile. */
    method CleanupExecutions(id: Id, except: Path) returns (errs: Failure)
      requires lib.Valid() && Tracked(executions, lib.copies, {})
      modifies this`executions, lib`copies, lib`faults, lib`calls
      ensures lib.Valid() && Tracked(executions, lib.copies, {})
      ensures OthersKept(id, old(lib.copies), lib.copies)
      ensures errs == {} ==>
        forall p :: p in Entry(executions, id) ==> p == except && except != NoPath
      ensures errs == {} && except == NoPath ==> executions == old(executions) - {id}
      ensures old(lib.faults) <= lib.faults && (lib.faults == old(lib.faults) ==> errs == {})
    {
      ghost var table := executions;
      var taken := TakeExecutions(id, except);
      TrackTaken(table, lib.copies, executions, taken, id);
      errs := CleanTaken(id, taken);
    }

    /** Splits a table entry into its first copy at `path` and the rest. */
    static method SplitFirst(current: seq<Path>, path: Path) returns (found: bool, kept: seq<Path>)
      requires NoRepeats(current)
      ensures found <==> path in current
      ensures NoRepeats(kept) && forall p :: p in kept <==> p in current && p != path
    {
      found, kept := false, [];
      for k := 0 to |current|
        invariant NoRepeats(kept) && (found <==> path in current[..k])
        invariant forall p :: p in kept <==> p in current[..k] && p != path
      {
        assert current[..k + 1] == current[..k] + [current[k]];
        assert current[k] !in current[..k];
        if !found && current[k] == path {
          found := true;
        } else {
          kept := kept + [current[k]];
        }
      }
      assert current[..|current|] == current;
    }

    /** Takes the copy of the profile at that path out of the table, if it is there. */
    method TakeAt(id: Id, path: Path) returns (taken: seq<Path>)
      requires lib.Valid() && Tracked(executions, lib.copies, {})
      modifies this`executions
      ensures taken == (if path in Entry(old(executions), id) then [path] else [])
      ensures TakenOut(old(executions), executions, taken, id)
      ensures forall p :: p in Entry(executions, id) <==> p in Entry(old(executions), id) && p != path
    {
      var found, kept := SplitFirst(Entry(executions, id), path);
      assert kept != [] ==> kept[0] in kept;
      executions := if kept == [] then executions - {id} else executions[id := kept];
      taken := if found then [path] else [];
    }

    /** No copy but the one of the profile at the path left its entry, and none appeared. */
    ghost predicate OnlyAt(id: Id, path: Path, table: map<Id, seq<Path>>, table': map<Id, seq<Path>>) {
      && (forall other, p {:trigger p in Entry(table', other)} ::
            p in Entry(table', other) ==> p in Entry(table, other))
      && (forall other, p {:trigger p in Entry(table', other)} ::
            p in Entry(table, other) && !(other == id && p == path) ==> p in Entry(table', other))
    }

    /** cleanupExecutionPath: removes the copy of the profile at that path, and no other. */
    method CleanupExecutionPath(id: Id, path: Path) returns (errs: Failure)
      requires lib.Valid() && Tracked(executions, lib.copies, {})
      modifies this`executions, lib`copies, lib`faults, lib`calls
      ensures lib.Valid() && Tracked(executions, lib.copies, {})
      ensures path == NoPath ==> errs != {}
      ensures path != NoPath && path !in Entry(old(executions), id) ==> errs == {}
      ensures errs == {} ==> path !in Entry(executions, id)
      ensures OthersKept(id, old(lib.copies), lib.copies) && OnlyAt(id, path, old(executions), executions)
      ensures old(lib.faults) <= lib.faults && (lib.faults == old(lib.faults) && path != NoPath ==> errs == {})
    {
      if path == NoPath { return {Failed}; }
      var taken := TakeAt(id, path);
      TrackTaken(old(executions), lib.copies, executions, taken, id);
      OnlyAtTaken(id, path, old(executions), executions, taken);
      errs := {};
      if taken == [] {
        assert Held(taken) == {};
      } else {
        errs := CleanAt(id, path, old(executions));
      }
    }

    /** The copy that was taken out is removed, or put back. */
    method CleanAt(id: Id, path: Path, ghost table: map<Id, seq<Path>>) returns (errs: Failure)
      requires lib.Valid() && Tracked(executions, lib.copies, Held([path])) && OnlyAt(id, path, table, executions)
      requires path in Entry(table, id) && path !in Entry(executions, id)
      requires path in lib.copies && lib.copies[path] == id
      modifies this`executions, lib`copies, lib`faults, lib`calls
      ensures lib.Valid() && Tracked(executions, lib.copies, {})
      ensures errs == {} ==> path !in Entry(executions, id)
      ensures OthersKept(id, old(lib.copies), lib.copies) && OnlyAt(id, path, table, executions)
      ensures old(lib.faults) <= lib.faults && (lib.faults == old(lib.faults) ==> errs == {})
    {
      assert Held([path]) == {path} && {path} - {path} == {};
      errs := CleanOne(id, path, {path});
      if errs != {} { OnlyAtBack(id, path, table, old(executions), executions); }
    }

    lemma OnlyAtTaken(id: Id, path: Path, table: map<Id, seq<Path>>, table': map<Id, seq<Path>>, taken: seq<Path>)
      requires TakenOut(table, table', taken, id) && forall p :: p in taken ==> p == path
      ensures OnlyAt(id, path, table, table')
    {
    }

    lemma OnlyAtBack(id: Id, path: Path, table: map<Id, seq<Path>>, table': map<Id, seq<Path>>,
                     back: map<Id, seq<Path>>)
      requires OnlyAt(id, path, table, table') && path in Entry(table, id) && PutBack(table', back, id, path)
      ensures OnlyAt(id, path, table, back)
    {
      forall other, p {:trigger p in Entry(back, other)}
        ensures p in Entry(back, other) <==> p in Entry(table', other) || (other == id && p == path)
      {
      }
    }

    /** cleanupAllExecutions: nil leaves the table empty and no copy outstanding. */
    method CleanupAllExecutions() returns (errs: Failure)
      requires lib.Valid() && Tracked(executions, lib.copies, {})
      modifies this`executions, lib`copies, lib`faults, lib`calls
      ensures lib.Valid() && Tracked(executions, lib.copies, {})
      ensures errs == {} ==> executions == map[] && lib.copies == map[]
      ensures old(lib.faults) <= lib.faults && (lib.faults == old(lib.faults) ==> errs == {})
    {
      var ids := executions.Keys;
      errs := {};
      while ids != {}
        invariant lib.Valid() && Tracked(executions, lib.copies, {})
        invariant errs == {} ==> executions.Keys <= ids
        invariant old(lib.faults) <= lib.faults && (lib.faults == old(lib.faults) ==> errs == {})
        decreases ids
      {
        var id :| id in ids;
        ids := ids - {id};
        var err := CleanupExecutions(id, NoPath);
        errs := errs + err;
      }
      if errs == {} {
        assert executions == map[];
        assert forall p :: p in lib.copies ==> p in Entry(executions, lib.copies[p]);
      }
    }

    // ----- backends -----------------------------------------------------------------------

    /** Some profile needs a backend that is not there. */
    predicate Lacking(profiles: set<Id>, protocol: Protocol) {
      protocol !in net.backends && exists p :: p in profiles && net.protocolOf(p) == protocol
    }

    /** observeProtocol: a protocol without profiles needs no backend. */
    method ObserveProtocol(profiles: set<Id>, protocol: Protocol) returns (answer: Answer, ghost acts: seq<Act>)
      requires net.Valid() && net.up <= profiles
      modifies net
      ensures net.Valid() && OnlyExits(old(net.up), old(net.exits), net.up, net.exits, net.told)
      ensures net.told == old(net.told)
      ensures net.trace == old(net.trace) + acts
      ensures forall a :: a in acts ==> a.Observed? && a.during == old(net.up)
      ensures answer.Seen? ==> NoDuplicates(answer.active)
      ensures answer.Seen? ==> forall p :: p in answer.active <==> p in net.up && net.protocolOf(p) == protocol
      ensures answer.Refused? ==> answer.errs != {} && answer.errs <= {IdentityConflict, Failed, Unavailable}
      ensures answer.Refused? && Unavailable in answer.errs ==> Lacking(profiles, protocol)
      ensures old(net.faults) <= net.faults
      ensures Lacking(profiles, protocol) ==> answer == Refused({Unavailable}) && acts == []
      ensures old(net.blind) <= net.blind && (net.faults == old(net.faults) ==> net.blind == old(net.blind))
      ensures net.blind == old(net.blind) && !Lacking(profiles, protocol) ==> answer.Seen?
    {
      acts := [];
      if forall p | p in profiles :: net.protocolOf(p) != protocol {
        return Seen([]), [];
      }
      if protocol !in net.backends {
        return Refused({Unavailable}), [];
      }
      answer := net.Observe(protocol, profiles);
      acts := [Observed(protocol, old(net.up))];
    }

    /** One protocol of observe: its tunnels, or that its backend is not there, or an error. */
    method List(profiles: set<Id>, protocol: Protocol)
      returns (active: seq<Id>, missing: bool, errs: Failure, ghost acts: seq<Act>)
      requires net.Valid() && net.up <= profiles
      modifies net
      ensures net.Valid() && OnlyExits(old(net.up), old(net.exits), net.up, net.exits, net.told)
      ensures net.told == old(net.told)
      ensures net.trace == old(net.trace) + acts
      ensures forall a :: a in acts ==> a.Observed? && a.during == old(net.up)
      ensures missing <==> Lacking(profiles, protocol)
      ensures missing || errs != {} ==> active == []
      ensures NoDuplicates(active) && forall p :: p in active ==> p in net.up && net.protocolOf(p) == protocol
      ensures errs == {} && !missing ==> forall p :: p in net.up && net.protocolOf(p) == protocol ==> p in active
      ensures errs <= {IdentityConflict, Failed}
      ensures old(net.faults) <= net.faults && (net.blind == old(net.blind) ==> errs == {})
      ensures old(net.blind) <= net.blind && (net.faults == old(net.faults) ==> net.blind == old(net.blind))
    {
      var answer;
      answer, acts := ObserveProtocol(profiles, protocol);
      active, missing, errs := [], false, {};
      match answer {
        case Seen(observed) => active := observed;
        case Refused(e) =>
          missing := Unavailable in e;
          if !missing { errs := e; }
      }
    }

    /** observe: nil means that what it lists is all that is up. A conflict of several tunnels is
        reported before a missing backend, and it too lists all that is up. */
    method Observe(profiles: set<Id>) returns (active: seq<Id>, errs: Failure, ghost acts: seq<Act>)
      requires net.Valid() && net.up <= profiles
      modifies net
      ensures net.Valid() && OnlyExits(old(net.up), old(net.exits), net.up, net.exits, net.told)
      ensures net.told == old(net.told)
      ensures net.trace == old(net.trace) + acts
      ensures forall a :: a in acts ==> a.Observed? && a.during <= old(net.up)
      ensures forall p :: p in active ==> p in old(net.up)
      ensures errs == {} ==> |active| <= 1
      ensures errs == {} || StateConflict in errs ==> forall p :: p in net.up ==> p in active
      ensures old(net.faults) <= net.faults
      ensures old(net.blind) <= net.blind && (net.faults == old(net.faults) ==> net.blind == old(net.blind))
      ensures net.blind == old(net.blind) ==>
        errs == if |active| > 1 then {StateConflict}
                else if Lacking(profiles, OpenVPN) || Lacking(profiles, WireGuard) then {Unavailable} else {}
      ensures AtMostOne(old(net.up)) ==> StateConflict !in errs
    {
      var openvpn, wireguard, missing, more;
      openvpn, missing, errs, acts := List(profiles, OpenVPN);
      TwoListed(openvpn);
      assert |openvpn| <= 1;
      if errs != {} { return openvpn, errs, acts; }
      assert forall p :: p in net.up && net.protocolOf(p) == OpenVPN ==> p in openvpn;
      ghost var seen;
      wireguard, more, errs, seen := List(profiles, WireGuard);
      acts, active, missing := acts + seen, openvpn + wireguard, missing || more;
      if errs != {} { return; }
      if AtMostOne(old(net.up)) { OneListed(openvpn, wireguard, old(net.up)); }
      if |active| > 1 {
        errs := {StateConflict};
      } else if missing {
        errs := {Unavailable};
      }
    }

    /** The execution copy of an attempted start: kept while the tunnel runs, else removed. */
    method SettleCopy(id: Id, path: Path, startErr: Failure) returns (errs: Failure)
      requires lib.Valid() && Tracked(executions, lib.copies, {path}) && path in lib.copies && lib.copies[path] == id
      requires StateConflict !in startErr
      modifies this`executions, lib`copies, lib`faults, lib`calls
      ensures lib.Valid() && Tracked(executions, lib.copies, {}) && StateConflict !in errs
      ensures startErr == {} ==> errs == {} && path in Entry(executions, id)
      ensures startErr != {} && path in lib.copies ==> CleanupUnproved in errs
      ensures path !in lib.copies ==> lib.copies == old(lib.copies) - {path}
      ensures startErr <= errs && (errs == startErr || CleanupUnproved in errs)
      ensures old(lib.faults) <= lib.faults && (lib.faults == old(lib.faults) ==> errs == startErr)
    {
      errs := startErr;
      if startErr != {} {
        var cleanupErr := CleanOne(id, path, {path});
        if cleanupErr != {} {
          errs := startErr + {CleanupUnproved} + cleanupErr;
        }
      } else {
        AddExecution(id, path, {path});
      }
      assert {path} - {path} == {};
    }

    lemma CopyGone(copies: map<Path, Id>, path: Path, id: Id)
      requires path !in copies
      ensures copies[path := id] - {path} == copies
    {
    }

    /** start: nil means the profile was brought up; an error without unproved cleanup means the
        tunnels are as they were found. The execution copy it prepared is tracked or removed. */
    method Start(id: Id) returns (errs: Failure, ghost acts: seq<Act>)
      requires Valid() && id in lib.record.profiles
      modifies this`executions, net, lib`copies, lib`nextCopy, lib`faults, lib`calls
      ensures Valid()
      ensures errs == {} ==> id in net.up && id in executions
      ensures net.protocolOf(id) !in net.backends ==> errs == {Unavailable} && acts == []
      ensures errs != {} && CleanupUnproved !in errs ==> lib.copies == old(lib.copies)
      ensures net.up <= old(net.up) + {id} && old(net.exits) <= net.exits
      ensures CleanupUnproved !in errs ==> forall p :: p in old(net.up) && p !in net.up && p !in old(net.told) ==>
        Queued(net.exits, p)
      ensures errs == {} ==> net.told == old(net.told) - {id}
      ensures errs != {} && CleanupUnproved !in errs ==> net.told <= old(net.told)
      ensures errs != {} && CleanupUnproved !in errs ==> net.up <= old(net.up)
      ensures net.trace == old(net.trace) + acts && |acts| <= 1
      ensures forall a :: a in acts ==> a.during <= old(net.up) + {id}
      ensures acts != [] ==> acts[0].Started? && acts[0].id == id
      ensures EndsUnproved(acts) && StopsProved(acts)
      ensures lib.faults == old(lib.faults) ==> (CleanupUnproved in errs <==> BeganUnproved(acts, id))
      ensures (CleanupUnproved !in errs ==> Proved(acts)) && StateConflict !in errs
      ensures old(lib.faults) <= lib.faults && old(net.faults) <= net.faults
      ensures Faults() == old(Faults()) && old(net.up) == {} && net.protocolOf(id) in net.backends ==> errs == {}
      ensures CleanupUnproved in errs && Proved(acts) && old(net.up) == {} ==> Faults() >= old(Faults()) + 2
    {
      acts := [];
      if net.protocolOf(id) !in net.backends { return {Unavailable}, []; }
      var path;
      errs, path := lib.PrepareExecution(id);
      if errs != {} { return; }
      TrackPrepared(executions, old(lib.copies), id, path);
      var startErr;
      ghost var before;
      CopyGone(old(lib.copies), path, id);
      startErr, before := net.Start(id);
      acts := [Started(id, startErr, before + {id})];
      assert CleanupUnproved in startErr ==> acts[0] in acts && !Proved(acts);
      errs := SettleCopy(id, path, startErr);
    }

    /** Removes the other copies of a stopped profile. */
    method CleanupOthers(id: Id, path: Path) returns (errs: Failure)
      requires lib.Valid() && Tracked(executions, lib.copies, {}) && path != NoPath
      modifies this`executions, lib`copies, lib`faults, lib`calls
      ensures lib.Valid() && Tracked(executions, lib.copies, {})
      ensures errs == {} && path !in old(lib.copies) ==> id !in executions
      ensures old(lib.faults) <= lib.faults && (lib.faults == old(lib.faults) ==> errs == {})
    {
      errs := CleanupExecutions(id, path);
      if errs == {} { NoneLeft(executions, lib.copies, id, path); }
      assert path in lib.copies ==> path in old(lib.copies);
    }

    /** stop: nil means the profile is down and none of its execution copies is left. */
    method Stop(id: Id) returns (errs: Failure, ghost acts: seq<Act>)
      requires Valid() && id in lib.record.profiles
      modifies this`executions, net, lib`copies, lib`nextCopy, lib`faults, lib`calls
      ensures Valid()
      ensures errs == {} ==> id !in net.up && id !in executions
      ensures net.protocolOf(id) !in net.backends ==> errs == {Unavailable} && acts == []
      ensures net.up <= old(net.up) && old(net.exits) <= net.exits
      ensures forall p :: p in old(net.up) && p !in net.up && p != id && p !in old(net.told) ==> Queued(net.exits, p)
      ensures errs == {} ==> net.told == old(net.told)
      ensures net.trace == old(net.trace) + acts && |acts| <= 1
      ensures forall a :: a in acts ==> a.Stopped? && a.during <= old(net.up)
      ensures errs == {} ==> StopsProved(acts)
      ensures StopsProved(acts) && lib.faults == old(lib.faults) && net.protocolOf(id) in net.backends ==> errs == {}
      ensures old(lib.faults) <= lib.faults && old(net.faults) <= net.faults
      ensures Faults() == old(Faults()) && net.protocolOf(id) in net.backends ==> errs == {}
    {
      acts := [];
      if net.protocolOf(id) !in net.backends { return {Unavailable}, []; }
      var path;
      errs, path := lib.PrepareExecution(id);
      if errs != {} { return; }
      TrackPrepared(executions, old(lib.copies), id, path);
      ghost var before;
      var stopErr;
      stopErr, before := net.Stop(id);
      acts := [Stopped(id, stopErr, before)];
      var cleanupErr := CleanOne(id, path, {path});
      assert {path} - {path} == {};
      if stopErr == {} {
        var more := CleanupOthers(id, path);
        cleanupErr := cleanupErr + more;
      }
      errs := stopErr + cleanupErr;
    }

    /** Unless someone else changed it, the startup mode is as it was. */
    ghost predicate KeptMode(edits: nat, record: Record)
      reads lib
    {
      edits <= lib.edits && (lib.edits == edits ==> lib.record.restore == record.restore)
    }

    /** reconcileConnection: records the connection, repairing durability once in between. */
    method ReconcileConnection(desired: Id, connectedAt: int) returns (errs: Failure)
      requires lib.Valid()
      modifies lib`record, lib`edits, lib`faults, lib`calls
      ensures lib.Valid()
      ensures errs == {} ==> Same(lib.record, old(lib.record).(desired := desired, connectedAt := connectedAt))
      ensures lib.record.profiles == old(lib.record.profiles)
      ensures lib.record.desired in {old(lib.record.desired), desired}
      ensures KeptMode(old(lib.edits), old(lib.record))
      ensures old(lib.faults) <= lib.faults
      ensures lib.faults <= old(lib.faults) + 1 && connectedAt >= 0 && (desired == "" || desired in lib.record.profiles)
              ==> errs == {}
    {
      var firstErr := lib.SetConnection(desired, connectedAt);
      if firstErr == {} { return {}; }
      var err := lib.RepairDurability();
      if err != {} { return firstErr + err; }
      err := lib.SetConnection(desired, connectedAt);
      if err != {} { return firstErr + err; }
      errs := {};
    }

    // ----- transitions --------------------------------------------------------------------

    /** The clock, in seconds since 1970. */
    method Now() returns (t: int)
      ensures t > 0
    {
      t :| t > 0;
    }

    /** What a finished transition may report: the reported profile is the only tunnel left up
        (or its exit report is queued); or nothing is up, and nothing was before; or a conflict. */
    ghost predicate Truthful(previous: Id)
      reads this`lifecycle, this`subject, net, lib
    {
      || lifecycle == Conflict
      || (lifecycle == Active && net.up <= {subject} && (subject in net.up || Queued(net.exits, subject)))
      || (lifecycle == Failing && net.up == {} && previous == "")
    }

    /** The record after a transition that failed and was taken back: as it was, or rewritten for what
        was up before, with a connection time only if something was. */
    ghost predicate Undone(previous: Id, before: Record, after: Record) {
      || Same(after, before)
      || (Same(after, before.(desired := previous, connectedAt := after.connectedAt))
          && (after.connectedAt > 0 <==> previous != ""))
    }

    /** What was up before is the tunnel that was observed, or its exit report is queued; a tunnel that
        had been told to stop without proof may be gone without a report. */
    ghost predicate Accounted(previous: Id, up: set<Id>, told: set<Id>)
      reads net
    {
      forall p :: p in up && p !in told ==> p == previous || Queued(net.exits, p)
    }

    /** First half of the recovery: the unrecorded target is stopped and, once it is proved down,
        the previous tunnel is started again. */
    method RollBack(target: Id, previous: Id)
      returns (cleanupErr: Failure, restoreErr: Failure, actual: Id, ghost acts: seq<Act>)
      requires Valid() && target in lib.record.profiles && net.up <= {target}
      requires previous != "" ==> previous in lib.record.profiles && previous != target
      modifies this`executions, net, lib`copies, lib`nextCopy, lib`faults, lib`calls
      ensures Valid()
      ensures cleanupErr == {} && restoreErr == {} ==>
        actual == previous && net.up == (if previous == "" then {} else {previous})
      ensures cleanupErr == {} && restoreErr == {} ==> net.up !! net.told
      ensures actual != "" ==> cleanupErr == {} && restoreErr == {}
      ensures cleanupErr != {} ==> NoStart(acts)
      ensures StopsProved(acts) && lib.faults == old(lib.faults) && Equipped(lib.record.profiles) ==> cleanupErr == {}
      ensures old(net.exits) <= net.exits
      ensures net.trace == old(net.trace) + acts && OneTunnel(acts) && EndsUnproved(acts) && AtMostOne(net.up)
      ensures old(lib.faults) <= lib.faults && old(net.faults) <= net.faults
      ensures Faults() == old(Faults()) && Equipped(lib.record.profiles) ==> cleanupErr == {} && restoreErr == {}
    {
      restoreErr, actual := {}, "";
      cleanupErr, acts := Stop(target);
      if previous != "" && cleanupErr == {} {
        ghost var more;
        restoreErr, more := Start(previous);
        Joined(old(net.trace), acts, more);
        acts := acts + more;
        if restoreErr == {} { actual := previous; }
      }
    }

    /** What is up after the rollback is recorded, with a time only if something is. */
    method RecordActual(desired: Id, actual: Id) returns (errs: Failure)
      requires lib.Valid() && (desired == "" || desired in lib.record.profiles)
      modifies lib`record, lib`edits, lib`faults, lib`calls
      ensures lib.Valid() && lib.record.profiles == old(lib.record.profiles) && StateConflict !in errs
      ensures errs == {} ==> lib.record.desired == desired && (lib.record.connectedAt != 0 <==> actual != "")
      ensures old(lib.faults) <= lib.faults && (lib.faults == old(lib.faults) ==> errs == {})
    {
      var at := 0;
      if actual != "" { at := Now(); }
      errs := lib.SetConnection(desired, at);
    }

    /** recoverPersistenceFailure: the target is up but could not be recorded. */
    method RecoverPersistenceFailure(target: Id, previous: Id, cause: Failure)
      returns (errs: Failure, ghost acts: seq<Act>)
      requires Valid() && target in lib.record.profiles && net.up <= {target} && cause != {}
      requires previous != "" ==> previous in lib.record.profiles && previous != target
      requires StateConflict !in cause
      modifies this`executions, this`lifecycle, this`subject, net, lib
      ensures Valid() && Settled() && Truthful(previous) && old(net.exits) <= net.exits
      ensures cause <= errs && (lifecycle == Conflict ==> StateConflict in errs)
      ensures lifecycle != Conflict ==> errs == cause
      ensures lifecycle == Active ==> subject == previous && previous != "" && lib.record.desired == previous
      ensures lifecycle == Active ==> lib.record.connectedAt > 0
      ensures lifecycle != Active ==> subject == target
      ensures lifecycle == Failing ==> lib.record.desired == "" && lib.record.connectedAt == 0
      ensures lifecycle == Conflict && lib.faults == old(lib.faults) && StopsProved(acts) ==>
        Equipped(lib.record.profiles) ==> lib.record.desired == previous && lib.record.connectedAt == 0
      ensures net.trace == old(net.trace) + acts && OneTunnel(acts) && EndsUnproved(acts) && AtMostOne(net.up)
      ensures lib.record.profiles == old(lib.record.profiles)
      ensures old(lib.faults) <= lib.faults && old(net.faults) <= net.faults
      ensures Faults() == old(Faults()) && Equipped(lib.record.profiles) ==>
        lifecycle == if previous == "" then Failing else Active
    {
      var reconcileErr: Failure := {};
      var cleanupErr, restoreErr, actual;
      cleanupErr, restoreErr, actual, acts := RollBack(target, previous);
      var repairErr := lib.RepairDurability();
      if cleanupErr == {} && repairErr == {} {
        reconcileErr := RecordActual(if previous != "" && restoreErr != {} then previous else actual, actual);
      }
      var truth := RecoveryTruth(cleanupErr, restoreErr, repairErr, reconcileErr);
      if truth == Known && actual != "" {
        SetLifecycle(Active, actual);
      } else {
        SetFailure(truth, target);
      }
      errs := cause + cleanupErr + restoreErr + repairErr + reconcileErr;
      if truth == Uncertain { errs := errs + {StateConflict}; }
    }

    /** After a failed start of the target that left nothing up: the previous tunnel, if any, is
        started again. */
    method Restore(target: Id, previous: Id, cause: Failure) returns (errs: Failure, ghost acts: seq<Act>)
      requires Valid() && net.up == {} && cause != {} && StateConflict !in cause
      requires previous != "" ==> previous in lib.record.profiles
      modifies this`executions, this`lifecycle, this`subject, net, lib
      ensures Valid() && Truthful(previous) && errs != {}
      ensures lifecycle == Active ==> subject == previous && previous != "" && net.up == {previous}
      ensures lifecycle != Conflict ==> Same(lib.record, old(lib.record)) && net.up !! net.told
      ensures lifecycle == Conflict && lib.faults == old(lib.faults) ==>
        lib.record.desired == previous && lib.record.connectedAt == 0
      ensures lifecycle != Active ==> subject == target
      ensures StateConflict in errs <==> lifecycle == Conflict
      ensures acts != [] ==> acts[0].Started? && acts[0].id == previous
      ensures TransitionFailed in errs && old(net.exits) <= net.exits
      ensures net.trace == old(net.trace) + acts && OneTunnel(acts) && EndsUnproved(acts) && AtMostOne(net.up)
      ensures old(lib.faults) <= lib.faults && old(net.faults) <= net.faults
      ensures lib.record.profiles == old(lib.record.profiles)
      ensures Faults() == old(Faults()) && Equipped(lib.record.profiles) ==>
        lifecycle == if previous == "" then Failing else Active
    {
      acts := [];
      if previous != "" {
        var restoreErr;
        restoreErr, acts := Start(previous);
        if restoreErr != {} {
          var reconcileErr := ReconcileConnection(previous, 0);
          SetFailure(Uncertain, target);
          return {StateConflict, TransitionFailed} + cause + restoreErr + reconcileErr, acts;
        }
        SetLifecycle(Active, previous);
      } else {
        SetLifecycle(Failing, target);
      }
      errs := {TransitionFailed} + cause;
    }

    /** The started target is recorded as the connection, or the transition is compensated. */
    method RecordTarget(target: Id, previous: Id) returns (errs: Failure, ghost acts: seq<Act>)
      requires Valid() && target in lib.record.profiles && net.up == {target} && target !in net.told
      requires previous != "" ==> previous in lib.record.profiles && previous != target
      modifies this`executions, this`lifecycle, this`subject, net, lib
      ensures Valid() && Truthful(previous) && Settled() && old(net.exits) <= net.exits
      ensures StateConflict in errs <==> lifecycle == Conflict
      ensures errs == {} <==> lifecycle == Active && subject == target
      ensures errs == {} ==> lib.record.desired == target && lib.record.connectedAt > 0
      ensures lifecycle == Active && subject != target ==> subject == previous && previous != ""
      ensures lifecycle == Active ==> lib.record.desired == subject && lib.record.connectedAt > 0
      ensures lifecycle != Active ==> subject == target
      ensures lifecycle == Failing ==> lib.record.desired == "" && lib.record.connectedAt == 0
      ensures net.trace == old(net.trace) + acts && OneTunnel(acts) && EndsUnproved(acts) && AtMostOne(net.up)
      ensures old(lib.faults) <= lib.faults && old(net.faults) <= net.faults
      ensures lib.record.profiles == old(lib.record.profiles)
      ensures lib.faults == old(lib.faults) ==> errs == {}
      ensures Faults() <= old(Faults()) + 1 && Equipped(lib.record.profiles) ==> lifecycle != Conflict
    {
      acts := [];
      var now := Now();
      errs := lib.SetConnection(target, now);
      if errs != {} {
        errs, acts := RecoverPersistenceFailure(target, previous, errs);
        return;
      }
      SetLifecycle(Active, target);
    }

    /** The target's start left its cleanup unproved: no connection is recorded, and a conflict reported. */
    method GiveUp(target: Id, desired: Id, startErr: Failure) returns (errs: Failure)
      requires Valid() && (desired == "" || desired in lib.record.profiles)
      modifies this`lifecycle, this`subject, lib`record, lib`edits, lib`faults, lib`calls
      ensures Valid() && lifecycle == Conflict && subject == target && startErr + {StateConflict} <= errs
      ensures lib.record.profiles == old(lib.record.profiles)
      ensures lib.faults <= old(lib.faults) + 1 ==> lib.record.desired == desired && lib.record.connectedAt == 0
      ensures old(lib.faults) <= lib.faults
    {
      var reconcileErr := ReconcileConnection(desired, 0);
      SetFailure(Uncertain, target);
      errs := {StateConflict} + startErr + reconcileErr;
    }

    /** The target is started with nothing else up. */
    method StartTarget(target: Id, previous: Id, record: Record) returns (errs: Failure, ghost acts: seq<Act>)
      requires Valid() && target in lib.record.profiles && Same(record, lib.record) && net.up == {}
      requires previous != "" ==> previous in lib.record.profiles && previous != target
      modifies this`executions, this`lifecycle, this`subject, net, lib
      ensures Valid() && Truthful(previous) && old(net.exits) <= net.exits
      ensures Foreseen(previous, record, old(net.exits)) ==> Settled()
      ensures StateConflict in errs <==> lifecycle == Conflict
      ensures errs == {} <==> lifecycle == Active && subject == target
      ensures errs == {} ==> lib.record.desired == target && lib.record.connectedAt > 0
      ensures lifecycle != Active ==> subject == target
      ensures lifecycle == Active && subject != target ==> subject == previous && previous != ""
      ensures errs != {} && lifecycle != Conflict ==> Undone(previous, old(lib.record), lib.record)
      ensures net.trace == old(net.trace) + acts && OneTunnel(acts) && EndsUnproved(acts) && AtMostOne(net.up)
      ensures old(lib.faults) <= lib.faults && old(net.faults) <= net.faults
      ensures lib.record.profiles == old(lib.record.profiles)
      ensures lifecycle == Conflict && lib.faults == old(lib.faults) ==>
        lib.record.connectedAt == 0
        && lib.record.desired == (if BeganUnproved(acts, target) then record.desired else previous)
      ensures Faults() == old(Faults()) && net.protocolOf(target) in net.backends ==> errs == {}
      ensures Faults() <= old(Faults()) + 1 && Proved(acts) && Equipped(record.profiles) ==> lifecycle != Conflict
    {
      var startErr;
      startErr, acts := Start(target);
      if startErr == {} {
        ghost var more;
        errs, more := RecordTarget(target, previous);
        Joined(old(net.trace), acts, more);
        acts := acts + more;
      } else if CleanupUnproved in startErr {
        errs := GiveUp(target, record.desired, startErr);
      } else {
        ghost var more;
        errs, more := Restore(target, previous, startErr);
        Joined(old(net.trace), acts, more);
        acts := acts + more;
      }
    }

    /** The observed tunnel, if any, is stopped before the target is started. */
    method StopPrevious(previous: Id) returns (errs: Failure, ghost acts: seq<Act>)
      requires Valid() && (forall p :: p in net.up ==> p == previous)
      requires previous != "" ==> previous in lib.record.profiles
      requires lifecycle == if previous != "" then Switching else Starting
      modifies this`executions, this`lifecycle, this`subject, net, lib`copies, lib`nextCopy, lib`faults, lib`calls
      ensures Valid()
      ensures errs == {} ==> net.up == {} && lifecycle == old(lifecycle) && subject == old(subject)
      ensures errs != {} ==> lifecycle == Conflict && StateConflict in errs && subject == previous
      ensures previous == "" ==> errs == {} && net.exits == old(net.exits)
      ensures net.trace == old(net.trace) + acts && OneTunnel(acts) && Proved(acts) && AtMostOne(net.up)
      ensures NoStart(acts) && (errs == {} ==> StopsProved(acts))
      ensures old(net.exits) <= net.exits
      ensures old(lib.faults) <= lib.faults && old(net.faults) <= net.faults
      ensures Faults() == old(Faults()) && Equipped(lib.record.profiles) ==> errs == {}
    {
      errs, acts := {}, [];
      if previous != "" {
        errs, acts := Stop(previous);
        if errs != {} {
          SetFailure(Uncertain, previous);
          errs := {StateConflict, TransitionFailed} + errs;
        }
      }
    }

    /** The transition of Connect, begun once what is up is known: stop what was observed, then
        start the target. It never settles in Starting or Switching. */
    method Transition(id: Id, previous: Id, record: Record) returns (errs: Failure, ghost acts: seq<Act>)
      requires Valid() && id in lib.record.profiles && Same(record, lib.record)
      requires id != previous && (forall p :: p in net.up ==> p == previous)
      requires previous != "" ==> previous in record.profiles
      modifies this`executions, this`lifecycle, this`subject, net, lib
      ensures Valid() && Truthful(previous) && old(net.exits) <= net.exits
      ensures Foreseen(previous, record, old(net.exits)) ==> Settled()
      ensures StateConflict in errs <==> lifecycle == Conflict
      ensures errs == {} <==> lifecycle == Active && subject == id
      ensures errs == {} ==> lib.record.desired == id && lib.record.connectedAt > 0
      ensures lifecycle != Active ==> subject == id || (subject == previous && previous != "")
      ensures lifecycle == Active && subject != id ==> subject == previous && previous != ""
      ensures errs != {} && lifecycle != Conflict ==> Undone(previous, old(lib.record), lib.record)
      ensures net.trace == old(net.trace) + acts && OneTunnel(acts) && EndsUnproved(acts) && AtMostOne(net.up)
      ensures old(lib.faults) <= lib.faults && old(net.faults) <= net.faults
      ensures lib.record.profiles == old(lib.record.profiles)
      ensures Faults() == old(Faults()) && Equipped(record.profiles) ==> errs == {}
      ensures previous == "" && Faults() <= old(Faults()) + 1 && Proved(acts) && Equipped(record.profiles) ==>
        lifecycle != Conflict
    {
      SetLifecycle(if previous != "" then Switching else Starting, id);
      errs, acts := StopPrevious(previous);
      if errs == {} {
        ghost var more;
        errs, more := StartTarget(id, previous, record);
        Joined(old(net.trace), acts, more);
        acts := acts + more;
      }
    }
    /** The target is already the observed tunnel: only its record is renewed. */
    method RenewActive(id: Id) returns (errs: Failure)
      requires Valid() && id in lib.record.profiles && net.up <= {id}
      modifies this`lifecycle, this`subject, lib`record, lib`edits, lib`faults, lib`calls
      ensures Valid() && ((net.up == {} ==> Queued(net.exits, id)) && net.up !! net.told ==> Settled())
      ensures errs == {} ==>
        lifecycle == Active && subject == id && lib.record.desired == id && lib.record.connectedAt > 0
      ensures errs != {} ==> lifecycle == Conflict && StateConflict in errs && subject == id
      ensures lib.record.profiles == old(lib.record.profiles)
      ensures old(lib.faults) <= lib.faults && (lib.faults <= old(lib.faults) + 2 ==> errs == {})
    {
      var now := Now();
      var err := lib.SetConnection(id, now);
      if err != {} {
        now := Now();
        var reconcileErr := ReconcileConnection(id, now);
        if reconcileErr != {} {
          SetFailure(Uncertain, id);
          return {StateConflict} + err + reconcileErr;
        }
      }
      SetLifecycle(Active, id);
      errs := {};
    }

    /** The checks of Connect that need no observation: the profile exists and is readable, and
        its backend answers. */
    method Admit(id: Id) returns (errs: Failure, ghost unreadable: bool)
      requires Valid() && !gateFree && lifecycle != Conflict
      modifies this`lifecycle, this`subject, net`faults, lib`faults, lib`calls
      ensures Valid() && lib.record == old(lib.record) && StateConflict !in errs
      ensures errs == {} ==> id in lib.record.profiles && net.protocolOf(id) in net.backends
      ensures if unreadable then lifecycle == Failing && subject == id else lifecycle == old(lifecycle)
      ensures unreadable ==> errs != {} && id in lib.record.profiles && lib.faults > old(lib.faults)
      ensures id in lib.record.profiles && id in lib.damaged ==> unreadable
      ensures id !in lib.record.profiles ==> errs == {NotFound}
      ensures id in lib.record.profiles && Unanswering(id) ==> errs != {} && (!unreadable ==> errs == {Unavailable})
      ensures old(lib.faults) <= lib.faults && old(net.faults) <= net.faults
      ensures Faults() == old(Faults()) && id in lib.record.profiles && Equipped(lib.record.profiles) ==> errs == {}
    {
      unreadable := false;
      if id !in lib.record.profiles { return {NotFound}, false; }
      errs := lib.Resolve(id);
      unreadable := errs != {};
      if errs != {} {
        SetFailure(Known, id);
        return;
      }
      if net.protocolOf(id) !in net.backends { return {Unavailable}, false; }
      errs := net.Available(net.protocolOf(id));
      if errs != {} { errs := {Unavailable}; }
    }

    /** Connect from its observation on: a conflict, a renewed record, or a transition. */
    method ObserveAndConnect(id: Id)
      returns (errs: Failure, ghost began: bool, ghost previous: Id, ghost acts: seq<Act>)
      requires Valid() && !gateFree && lifecycle != Conflict && id in lib.record.profiles
      modifies this`executions, this`lifecycle, this`subject, net, lib
      ensures Valid() && (old(Settled()) ==> Settled())
      ensures StateConflict in errs <==> lifecycle == Conflict
      ensures errs == {} ==> lifecycle == Active && subject == id && net.up <= {id}
      ensures errs == {} && old(net.up !! net.told) ==> id in net.up || Queued(net.exits, id)
      ensures errs == {} ==> lib.record.desired == id && lib.record.connectedAt > 0
      ensures began ==> Truthful(previous) && (previous == "" || previous in old(net.up))
      ensures began ==> Accounted(previous, old(net.up), old(net.told))
      ensures began && errs != {} && lifecycle == Active ==> subject == previous && previous != ""
      ensures !began && errs != {} ==> lifecycle == Conflict && subject == id
      ensures !began ==> net.up <= old(net.up) && forall a :: a in acts ==> a.Observed?
      ensures began && errs != {} && lifecycle != Conflict ==> Undone(previous, old(lib.record), lib.record)
      ensures net.trace == old(net.trace) + acts && EndsUnproved(acts)
      ensures AtMostOne(old(net.up)) ==> OneTunnel(acts) && AtMostOne(net.up)
      ensures lib.record.profiles == old(lib.record.profiles)
      ensures old(lib.faults) <= lib.faults && old(net.faults) <= net.faults
      ensures Faults() == old(Faults()) && old(Equipped(lib.record.profiles) && AtMostOne(net.up)) ==> errs == {}
    {
      began, previous := false, "";
      var active;
      active, errs, acts := Observe(lib.record.profiles);
      if errs != {} {
        SetFailure(Uncertain, id);
        errs := {StateConflict} + errs;
      } else if |active| == 1 && active[0] == id {
        errs := RenewActive(id);
      } else {
        began := true;
        var observed := if |active| == 1 then active[0] else "";
        previous := observed;
        ForeseenAfterObserving(lib.record, active, old(net.up), old(net.exits), net.up, net.exits, net.told);
        ghost var more;
        errs, more := Transition(id, observed, lib.record);
        Joined(old(net.trace), acts, more);
        acts := acts + more;
      }
    }

    /** Connect. `began` says whether a transition was begun, and `previous` names the tunnel that
        was then observed; `unreadable` says that the stored object did not validate. */
    method Connect(id: Id)
      returns (errs: Failure, ghost began: bool, ghost previous: Id, ghost unreadable: bool, ghost acts: seq<Act>)
      requires Valid()
      modifies this, net, lib
      ensures Valid() && gateFree == old(gateFree)
      ensures !old(gateFree) ==> errs == {TransitionInProgress}
      ensures old(gateFree) && old(lifecycle) == Conflict ==> errs == {StateConflict}
      ensures !old(gateFree) || old(lifecycle) == Conflict ==> unchanged(this) && unchanged(net) && unchanged(lib)
      ensures old(Settled()) ==> Settled()
      ensures old(gateFree) ==> (StateConflict in errs <==> lifecycle == Conflict)
      ensures errs == {} ==> lifecycle == Active && subject == id && net.up <= {id}
      ensures errs == {} && old(net.up !! net.told) ==> id in net.up || Queued(net.exits, id)
      ensures errs == {} ==> lib.record.desired == id && lib.record.connectedAt > 0
      ensures began ==> Truthful(previous) && (previous == "" || previous in old(net.up))
      ensures began ==> Accounted(previous, old(net.up), old(net.told))
      ensures began && errs != {} && lifecycle == Active ==> subject == previous && previous != ""
      ensures !began && errs != {} ==> lifecycle == Conflict || unreadable || lifecycle == old(lifecycle)
      ensures unreadable ==>
        !began && acts == [] && lifecycle == Failing && subject == id && lib.faults > old(lib.faults)
      ensures old(gateFree && lifecycle != Conflict && id in lib.record.profiles) && id in lib.damaged ==> unreadable
      ensures old(Ready() && (id !in lib.record.profiles || Unanswering(id))) ==>
        errs != {} && !began && acts == [] && net.up == old(net.up) && lib.record == old(lib.record)
      ensures old(Ready() && id in lib.record.profiles && Unanswering(id)) && !unreadable ==>
        errs == {Unavailable} && lifecycle == old(lifecycle)
      ensures old(Ready() && id !in lib.record.profiles) ==> errs == {NotFound} && lifecycle == old(lifecycle)
      ensures old(lifecycle) != Failing ==> (lifecycle == Failing && net.up != {} <==> unreadable && old(net.up) != {})
      ensures !began ==> net.up <= old(net.up) && forall a :: a in acts ==> a.Observed?
      ensures began && errs != {} && lifecycle != Conflict ==> Undone(previous, old(lib.record), lib.record)
      ensures net.trace == old(net.trace) + acts && EndsUnproved(acts)
      ensures AtMostOne(old(net.up)) ==> OneTunnel(acts) && AtMostOne(net.up)
      ensures lib.record.profiles == old(lib.record.profiles)
      ensures old(Ready() && Connectable(id, lib.record.profiles, net.up)) && Faults() == old(Faults()) ==> errs == {}
    {
      began, previous, unreadable, acts := false, "", false, [];
      if !gateFree { return {TransitionInProgress}, false, "", false, []; }
      if lifecycle == Conflict { return {StateConflict}, false, "", false, []; }
      gateFree := false;
      errs, unreadable := Admit(id);
      if errs == {} {
        errs, began, previous, acts := ObserveAndConnect(id);
      }
      gateFree := true;
    }

    /** The observation of Disconnect; out of a conflict, a failed one is retried after a shutdown
        of every backend. Nil means that what it lists is all that is up. */
    method ObserveToDisconnect(prior: Lifecycle) returns (active: seq<Id>, errs: Failure, ghost acts: seq<Act>)
      requires Valid()
      modifies net
      ensures Valid() && net.up <= old(net.up)
      ensures forall p :: p in active ==> p in lib.record.profiles
      ensures errs == {} ==> forall p :: p in net.up ==> p in active
      ensures net.trace == old(net.trace) + acts && StopsProved(acts)
      ensures forall a :: a in acts ==> !a.Started? && a.during <= old(net.up)
      ensures old(net.faults) <= net.faults
      ensures net.faults == old(net.faults) && Equipped(lib.record.profiles) ==> errs == {}
      ensures old(net.blind) <= net.blind && (net.faults == old(net.faults) ==> net.blind == old(net.blind))
      ensures prior == Conflict && net.blind <= old(net.blind) + 1 && Equipped(lib.record.profiles) ==> errs == {}
      ensures prior != Conflict ==> forall a :: a in acts ==> a.Observed?
    {
      active, errs, acts := Observe(lib.record.profiles);
      if errs != {} && StateConflict !in errs && prior == Conflict {
        ghost var more;
        active, errs, more := ShutdownAndObserve();
        Joined(old(net.trace), acts, more);
        acts := acts + more;
      }
      if StateConflict in errs { errs := {}; }
    }

    /** The way out of a conflict that could not be observed: every backend is shut down first. */
    method ShutdownAndObserve() returns (active: seq<Id>, errs: Failure, ghost acts: seq<Act>)
      requires Valid()
      modifies net
      ensures Valid() && net.up <= old(net.up)
      ensures forall p :: p in active ==> p in lib.record.profiles
      ensures errs == {} || StateConflict in errs ==> forall p :: p in net.up ==> p in active
      ensures net.trace == old(net.trace) + acts && StopsProved(acts)
      ensures forall a :: a in acts ==> !a.Started? && a.during <= old(net.up)
      ensures old(net.faults) <= net.faults
      ensures old(net.blind) <= net.blind && (net.faults == old(net.faults) ==> net.blind == old(net.blind))
      ensures net.blind == old(net.blind) && Equipped(lib.record.profiles) ==> errs == {} || StateConflict in errs
    {
      var shutdownErr := net.Shutdown();
      ghost var first := [ShutDown(old(net.up))];
      active, errs, acts := Observe(lib.record.profiles);
      Joined(old(net.trace), first, acts);
      acts := first + acts;
      if errs != {} { errs := errs + shutdownErr; }
    }

    /** Stops every observed tunnel. */
    method StopAll(active: seq<Id>) returns (errs: Failure, ghost acts: seq<Act>)
      requires Valid()
      requires forall p :: p in active ==> p in lib.record.profiles
      requires forall p :: p in net.up ==> p in active
      modifies this`executions, net, lib`copies, lib`nextCopy, lib`faults, lib`calls
      ensures Valid() && net.up <= old(net.up)
      ensures errs == {} ==> net.up == {} && StopsProved(acts)
      ensures net.trace == old(net.trace) + acts
      ensures forall a :: a in acts ==> !a.Started? && a.during <= old(net.up)
      ensures old(lib.faults) <= lib.faults && old(net.faults) <= net.faults
      ensures Faults() == old(Faults()) && Equipped(lib.record.profiles) ==> errs == {}
    {
      errs, acts := {}, [];
      for k := 0 to |active|
        invariant Valid() && net.up <= old(net.up)
        invariant errs == {} ==> StopsProved(acts) && forall p :: p in net.up ==> p in active[k..]
        invariant net.trace == old(net.trace) + acts
        invariant forall a :: a in acts ==> !a.Started? && a.during <= old(net.up)
        invariant old(lib.faults) <= lib.faults && old(net.faults) <= net.faults
        invariant Faults() == old(Faults()) && Equipped(lib.record.profiles) ==> errs == {}
      {
        assert active[k..] == [active[k]] + active[k + 1..];
        var err;
        ghost var more;
        err, more := Stop(active[k]);
        Joined(old(net.trace), acts, more);
        errs, acts := errs + err, acts + more;
      }
    }

    /** Clears the recorded connection, repairing durability once in between. */
    method ClearConnection() returns (errs: Failure)
      requires lib.Valid()
      modifies lib`record, lib`edits, lib`faults, lib`calls
      ensures lib.Valid() && lib.record.profiles == old(lib.record.profiles)
      ensures errs == {} ==> lib.record.desired == "" && lib.record.connectedAt == 0
      ensures old(lib.faults) <= lib.faults && (lib.faults <= old(lib.faults) + 1 ==> errs == {})
    {
      errs := lib.SetConnection("", 0);
      if errs != {} {
        var repairErr := lib.RepairDurability();
        if repairErr != {} { return errs + repairErr; }
        var retryErr := lib.SetConnection("", 0);
        if retryErr != {} { return errs + retryErr; }
        errs := {};
      }
    }

    /** What Disconnect does with the gate held. */
    method StopEverything(prior: Lifecycle) returns (errs: Failure, ghost acts: seq<Act>)
      requires Valid() && !gateFree && lifecycle == Disconnecting
      modifies this`executions, net, lib
      ensures Valid()
      ensures errs == {} ==> net.up == {} && executions == map[] && lib.copies == map[]
      ensures errs == {} ==> lib.record.desired == "" && lib.record.connectedAt == 0
      ensures !StopsProved(acts) ==> TransitionFailed in errs
      ensures lib.record.profiles == old(lib.record.profiles)
      ensures net.trace == old(net.trace) + acts && net.up <= old(net.up)
      ensures forall a :: a in acts ==> !a.Started? && a.during <= old(net.up)
      ensures old(lib.faults) <= lib.faults && old(net.faults) <= net.faults
      ensures Faults() == old(Faults()) && Equipped(old(lib.record.profiles)) ==> errs == {}
    {
      var active;
      active, errs, acts := ObserveToDisconnect(prior);
      if errs == {} {
        ghost var more;
        errs, more := StopAll(active);
        Joined(old(net.trace), acts, more);
        acts := acts + more;
        if errs != {} {
          errs := errs + {TransitionFailed};
        } else {
          errs := CleanupAllExecutions();
          if errs == {} { errs := ClearConnection(); }
        }
      }
    }

    /** Disconnect: nil proves that nothing is up, no execution copy is left, and no connection is
        recorded; every other outcome is a reported conflict. */
    method Disconnect() returns (errs: Failure, ghost acts: seq<Act>)
      requires Valid()
      modifies this, net, lib
      ensures Valid() && gateFree == old(gateFree)
      ensures !old(gateFree) ==> errs == {TransitionInProgress} && unchanged(this) && unchanged(net) && unchanged(lib)
      ensures old(gateFree) ==> Settled()
      ensures errs == {} ==> lifecycle == Disconnected && subject == ""
      ensures errs == {} ==> net.up == {} && executions == map[] && lib.copies == map[]
      ensures errs == {} ==> lib.record.desired == "" && lib.record.connectedAt == 0
      ensures old(gateFree) && errs != {} ==> lifecycle == Conflict && StateConflict in errs
      ensures !StopsProved(acts) ==> TransitionFailed in errs
      ensures lib.record.profiles == old(lib.record.profiles) && net.up <= old(net.up)
      ensures net.trace == old(net.trace) + acts && forall a :: a in acts ==> !a.Started?
      ensures AtMostOne(old(net.up)) ==> OneTunnel(acts) && AtMostOne(net.up)
      ensures old(gateFree && Equipped(lib.record.profiles)) && Faults() == old(Faults()) ==> errs == {}
    {
      acts := [];
      if !gateFree { return {TransitionInProgress}, []; }
      gateFree := false;
      var prior := lifecycle;
      SetLifecycle(Disconnecting, "");
      errs, acts := StopEverything(prior);
      WithinOne(acts, old(net.up));
      if errs != {} {
        SetFailure(Uncertain, "");
        errs := errs + {StateConflict};
      } else {
        SetLifecycle(Disconnected, "");
      }
      gateFree := true;
    }

    /** Remove: refused in a conflict and for the profile that is up. */
    method Remove(id: Id) returns (errs: Failure, ghost acts: seq<Act>)
      requires Valid()
      modifies this, net, lib
      ensures Valid() && gateFree == old(gateFree) && lifecycle == old(lifecycle) && executions == old(executions)
      ensures !old(gateFree) ==> errs == {TransitionInProgress}
      ensures old(gateFree) && old(lifecycle) == Conflict ==> errs == {StateConflict}
      ensures !old(gateFree) || old(lifecycle) == Conflict ==> unchanged(this) && unchanged(net) && unchanged(lib)
      ensures old(Settled()) ==> Settled()
      ensures errs == {} ==>
        Same(lib.record, Without(old(lib.record), id)) && id in old(lib.record.profiles) && id !in net.up
      ensures errs != {} ==> Same(lib.record, old(lib.record)) || Same(lib.record, Without(old(lib.record), id))
      ensures ActiveProfile in errs ==> lib.record == old(lib.record) && id in old(net.up)
      ensures old(Ready() && id !in lib.record.profiles) ==> errs == {NotFound} && acts == []
      ensures old(Ready() && id in lib.record.profiles && Equipped(lib.record.profiles)) ==>
        net.faults == old(net.faults) && id in net.up ==> errs == {ActiveProfile}
      ensures OnlyExits(old(net.up), old(net.exits), net.up, net.exits, net.told) && net.told == old(net.told)
      ensures net.trace == old(net.trace) + acts && forall a :: a in acts ==> a.Observed?
      ensures AtMostOne(old(net.up)) ==> OneTunnel(acts) && AtMostOne(net.up)
      ensures old(Ready() && Equipped(lib.record.profiles) && id in lib.record.profiles && id !in net.up) ==>
        Faults() == old(Faults()) ==> errs == {}
    {
      acts := [];
      if !gateFree { return {TransitionInProgress}, []; }
      if lifecycle == Conflict { return {StateConflict}, []; }
      if id !in lib.record.profiles { return {NotFound}, []; }
      gateFree := false;
      errs, acts := RemoveInactive(id);
      WithinOne(acts, old(net.up));
      gateFree := true;
    }

    /** Remove with the gate held: the profile's protocol is observed before anything is removed. */
    method RemoveInactive(id: Id) returns (errs: Failure, ghost acts: seq<Act>)
      requires Valid() && !gateFree && id in lib.record.profiles
      modifies net, lib
      ensures Valid() && lib.copies == old(lib.copies)
      ensures errs == {} ==> Same(lib.record, Without(old(lib.record), id)) && id !in net.up
      ensures errs != {} ==> Same(lib.record, old(lib.record)) || Same(lib.record, Without(old(lib.record), id))
      ensures ActiveProfile in errs ==> lib.record == old(lib.record) && id in old(net.up)
      ensures id !in net.up || lib.record == old(lib.record)
      ensures old(Equipped(lib.record.profiles)) && net.faults == old(net.faults) && id in net.up ==>
        errs == {ActiveProfile}
      ensures OnlyExits(old(net.up), old(net.exits), net.up, net.exits, net.told) && net.told == old(net.told)
      ensures net.trace == old(net.trace) + acts && forall a :: a in acts ==> a.Observed? && a.during == old(net.up)
      ensures old(lib.faults) <= lib.faults && old(net.faults) <= net.faults
      ensures Faults() == old(Faults()) && old(Equipped(lib.record.profiles) && id !in net.up) ==> errs == {}
    {
      var answer;
      answer, acts := ObserveProtocol(lib.record.profiles, net.protocolOf(id));
      if answer.Refused? {
        errs := answer.errs;
      } else if id in answer.active {
        errs := {ActiveProfile};
      } else {
        errs := lib.Remove(id);
      }
    }

    // ----- startup and exits --------------------------------------------------------------

    /** The restored tunnel could not be recorded: it is stopped again and the record settled. */
    method Unrestore(target: Id) returns (ghost acts: seq<Act>)
      requires Valid() && target in lib.record.profiles && net.up <= {target} && lib.record.desired == target
      requires net.protocolOf(target) in net.backends
      modifies this`executions, this`lifecycle, this`subject, net, lib
      ensures Valid() && Settled()
      ensures lifecycle == Conflict || (lifecycle == Failing && net.up == {} && lib.record.connectedAt == 0)
      ensures net.trace == old(net.trace) + acts && OneTunnel(acts) && EndsUnproved(acts) && AtMostOne(net.up)
      ensures lib.record.profiles == old(lib.record.profiles) && lib.record.desired == old(lib.record.desired)
      ensures Faults() == old(Faults()) ==> lifecycle == Failing
      ensures subject == target
      ensures old(lib.edits) <= lib.edits
      ensures old(lib.faults) <= lib.faults && old(net.faults) <= net.faults
    {
      var stopErr, reconcileErr: Failure := {}, {};
      stopErr, acts := Stop(target);
      var repairErr := lib.RepairDurability();
      if stopErr == {} && repairErr == {} {
        reconcileErr := ReconcileConnection(target, 0);
      }
      SetFailure(RecoveryTruth(stopErr, {}, repairErr, reconcileErr), target);
    }

    /** The desired profile was started at startup: it is recorded, or stopped again. */
    method RecordRestored(target: Id) returns (ghost acts: seq<Act>)
      requires Valid() && target in lib.record.profiles && net.up == {target} && target !in net.told
      requires lib.record.desired == target && lifecycle == Restoring && subject == target
      requires net.protocolOf(target) in net.backends
      modifies this`executions, this`lifecycle, this`subject, net, lib
      ensures Valid() && Settled()
      ensures lifecycle == Conflict || (lifecycle == Failing && net.up == {} && lib.record.connectedAt == 0)
              || (lifecycle == Active && subject == target && net.up == {target})
      ensures net.trace == old(net.trace) + acts && OneTunnel(acts) && EndsUnproved(acts) && AtMostOne(net.up)
      ensures lib.record.profiles == old(lib.record.profiles) && lib.record.desired == old(lib.record.desired)
      ensures Faults() == old(Faults()) ==> lifecycle == Active
      ensures Faults() <= old(Faults()) + 1 ==> lifecycle != Conflict
      ensures subject == target && (lifecycle == Active ==> lib.record.connectedAt > 0)
      ensures old(lib.edits) <= lib.edits
      ensures old(lib.faults) <= lib.faults && old(net.faults) <= net.faults
    {
      acts := [];
      var now := Now();
      var err := lib.SetConnection(target, now);
      if err != {} {
        acts := Unrestore(target);
      } else {
        SetLifecycle(Active, target);
      }
    }

    /** The desired profile, known to be readable, is started at startup and recorded. */
    method StartDesired(target: Id) returns (ghost acts: seq<Act>)
      requires Valid() && net.up == {} && target in lib.record.profiles
      requires lib.record.desired == target && lib.record.connectedAt == 0
      modifies this`executions, this`lifecycle, this`subject, net, lib
      ensures Valid() && Settled() && lib.record.desired == target
      ensures lifecycle == Conflict || (lifecycle == Failing && net.up == {} && lib.record.connectedAt == 0)
              || (lifecycle == Active && subject == target && net.up == {target})
      ensures net.trace == old(net.trace) + acts && OneTunnel(acts) && EndsUnproved(acts) && AtMostOne(net.up)
      ensures lib.record.profiles == old(lib.record.profiles)
      ensures Faults() == old(Faults()) && net.protocolOf(target) in net.backends ==> lifecycle == Active
      ensures Faults() <= old(Faults()) + 1 && Proved(acts) ==> lifecycle != Conflict
      ensures subject == target && (lifecycle == Active ==> lib.record.connectedAt > 0)
      ensures old(lib.edits) <= lib.edits
      ensures old(lib.faults) <= lib.faults && old(net.faults) <= net.faults
    {
      SetLifecycle(Restoring, target);
      var err;
      err, acts := Start(target);
      if err != {} {
        SetFailure(if CleanupUnproved in err then Uncertain else Known, target);
      } else {
        ghost var more;
        more := RecordRestored(target);
        Joined(old(net.trace), acts, more);
        acts := acts + more;
      }
    }

    /** The desired profile is restored at startup, with nothing up and no connection recorded. */
    method RestoreDesired() returns (ghost acts: seq<Act>)
      requires Valid() && net.up == {} && lib.record.desired != "" && lib.record.connectedAt == 0
      requires lib.record.restore
      modifies this`executions, this`lifecycle, this`subject, net, lib
      ensures Valid() && Settled()
      ensures lifecycle == Conflict || (lifecycle == Failing && net.up == {} && lib.record.connectedAt == 0)
              || (lifecycle == Active && subject == old(lib.record.desired) && net.up == {subject})
      ensures net.trace == old(net.trace) + acts && OneTunnel(acts) && EndsUnproved(acts) && AtMostOne(net.up)
      ensures lib.record.profiles == old(lib.record.profiles) && lib.record.desired == old(lib.record.desired)
      ensures Faults() == old(Faults()) && Equipped(lib.record.profiles) ==> lifecycle == Active
      ensures Faults() <= old(Faults()) + 1 && Proved(acts) ==> lifecycle != Conflict
      ensures subject == old(lib.record.desired) && (lifecycle == Active ==> lib.record.connectedAt > 0)
      ensures old(lib.edits) <= lib.edits
      ensures old(lib.faults) <= lib.faults && old(net.faults) <= net.faults
    {
      acts := [];
      var target := lib.record.desired;
      if net.protocolOf(target) !in net.backends {
        SetFailure(Known, target);
        return;
      }
      var err := lib.Resolve(target);
      if err != {} {
        SetFailure(Known, target);
        return;
      }
      acts := StartDesired(target);
    }

    /** What startup may report, given the desired profile of the manifest it found. */
    ghost predicate Reconciled(desired: Id)
      reads this`lifecycle, this`subject, net, lib
    {
      match lifecycle
      case Conflict => true
      case Failing => net.up == {} && lib.record.connectedAt == 0
      case Disconnected =>
        net.up == {} && lib.record.connectedAt == 0 && (!lib.record.restore || lib.record.desired == "")
      case Active => subject == desired && net.up <= {subject} && (subject in net.up || Queued(net.exits, subject))
      case _ => false
    }

    /** Startup from this record starts nothing, whatever its connection time: it names no profile, or
        the startup mode was manual and nobody has changed it since. */
    ghost predicate StaysManual(edits: nat, record: Record)
      reads lib`edits
    {
      record.desired == "" || (!record.restore && lib.edits == edits)
    }

    /** Startup with nothing up: a stale connection time is cleared, and in restore mode the
        desired profile is started. */
    method StartIdle() returns (ghost acts: seq<Act>)
      requires Valid() && net.up == {} && lifecycle == Restoring
      modifies this`executions, this`lifecycle, this`subject, net, lib
      ensures Valid() && Settled()
      ensures Reconciled(old(lib.record.desired))
      ensures StaysManual(old(lib.edits), old(lib.record)) ==> acts == []
      ensures StaysManual(old(lib.edits), old(lib.record)) && Faults() == old(Faults()) ==> lifecycle == Disconnected
      ensures net.trace == old(net.trace) + acts && OneTunnel(acts) && EndsUnproved(acts) && AtMostOne(net.up)
      ensures lib.record.profiles == old(lib.record.profiles) && lib.record.desired == old(lib.record.desired)
      ensures Faults() == old(Faults()) && Equipped(lib.record.profiles) ==>
        lifecycle == Active || lifecycle == Disconnected
      ensures Faults() <= old(Faults()) + 1 && Proved(acts) ==> lifecycle != Conflict
      ensures lifecycle != Disconnected ==> subject == old(lib.record.desired)
      ensures lifecycle == Active ==> lib.record.connectedAt > 0
      ensures old(lib.faults) <= lib.faults && old(net.faults) <= net.faults
    {
      acts := [];
      var desired, err := lib.record.desired, {};
      if lib.record.connectedAt != 0 {
        err := ReconcileConnection(desired, 0);
      }
      if err != {} {
        SetFailure(Uncertain, desired);
      } else if !lib.record.restore || lib.record.desired == "" {
        SetLifecycle(Disconnected, "");
      } else {
        acts := RestoreDesired();
      }
    }

    /** Startup with one tunnel observed: it is the desired profile, or a conflict is reported. */
    method Adopt(id: Id)
      requires Valid() && lifecycle == Restoring
      requires net.up !! net.told && net.up <= {id} && (net.up == {} ==> Queued(net.exits, id))
      modifies this`lifecycle, this`subject
      ensures Valid() && Settled() && Reconciled(lib.record.desired) && subject == id
      ensures lifecycle == if id == lib.record.desired then Active else Conflict
    {
      SetLifecycle(if id == lib.record.desired then Active else Conflict, id);
    }

    /** ReconcileStartup with the gate held. */
    method Reconcile() returns (ghost acts: seq<Act>)
      requires Valid() && !gateFree && net.up !! net.told
      modifies this`executions, this`lifecycle, this`subject, net, lib
      ensures Valid() && Settled() && Reconciled(old(lib.record.desired))
      ensures StaysManual(old(lib.edits), old(lib.record)) ==> forall a :: a in acts ==> a.Observed?
      ensures net.trace == old(net.trace) + acts && EndsUnproved(acts)
      ensures AtMostOne(old(net.up)) ==> OneTunnel(acts) && AtMostOne(net.up)
      ensures lib.record.profiles == old(lib.record.profiles) && lib.record.desired == old(lib.record.desired)
      ensures Faults() == old(Faults()) && old(Equipped(lib.record.profiles) && net.up <= {lib.record.desired}) ==>
        lifecycle == Active || lifecycle == Disconnected
    {
      SetLifecycle(Restoring, "");
      var active, err;
      active, err, acts := Observe(lib.record.profiles);
      if err != {} {
        SetFailure(Uncertain, "");
      } else if |active| == 1 {
        assert active[0] in active;
        Adopt(active[0]);
      } else {
        ghost var more;
        more := StartIdle();
        Joined(old(net.trace), acts, more);
        acts := acts + more;
      }
    }

    /** ReconcileStartup: whatever the manifest and the tunnels were, the desired-state promise
        holds afterwards or a conflict is reported. */
    method ReconcileStartup() returns (ghost acts: seq<Act>)
      requires Valid() && gateFree && net.up !! net.told
      modifies this, net, lib
      ensures Valid() && gateFree && Settled()
      ensures Reconciled(old(lib.record.desired))
      ensures StaysManual(old(lib.edits), old(lib.record)) ==> forall a :: a in acts ==> a.Observed?
      ensures net.trace == old(net.trace) + acts && EndsUnproved(acts)
      ensures AtMostOne(old(net.up)) ==> OneTunnel(acts) && AtMostOne(net.up)
      ensures lib.record.profiles == old(lib.record.profiles) && lib.record.desired == old(lib.record.desired)
      ensures Faults() == old(Faults()) && old(Equipped(lib.record.profiles) && net.up <= {lib.record.desired}) ==>
        lifecycle == Active || lifecycle == Disconnected
    {
      gateFree := false;
      acts := Reconcile();
      gateFree := true;
    }

    /** The report names the desired profile: what is observed decides. */
    method HandleDesiredExit(id: Id) returns (ghost acts: seq<Act>)
      requires Valid() && !gateFree && lib.record.desired == id
      requires lifecycle != Conflict ==> net.up !! net.told && forall p :: p in net.up ==> p == id
      modifies this`executions, this`lifecycle, this`subject, net, lib
      ensures Valid() && Settled() && OnlyExits(old(net.up), old(net.exits), net.up, net.exits, net.told)
      ensures net.told == old(net.told)
      ensures lib.record.profiles == old(lib.record.profiles) && lib.record.desired == old(lib.record.desired)
      ensures net.up != {} ==> executions == old(executions)
      ensures OthersKept(id, old(lib.copies), lib.copies)
      ensures lifecycle != Conflict && net.up == {} ==>
        || (lifecycle == Failing && lib.record.connectedAt == 0 && id !in executions)
        || (lifecycle == old(lifecycle) && Queued(net.exits, id))
      ensures lifecycle != Conflict && net.up != {} ==> net.up == {id} && lifecycle == old(lifecycle)
      ensures net.trace == old(net.trace) + acts && forall a :: a in acts ==> a.Observed? && a.during <= old(net.up)
      ensures Faults() == old(Faults()) && old(Equipped(lib.record.profiles) && net.up <= {id}) ==>
        old(lifecycle) != Conflict ==> lifecycle != Conflict
      ensures old(lib.faults) <= lib.faults && old(net.faults) <= net.faults
    {
      var active, err;
      active, err, acts := Observe(lib.record.profiles);
      assert active != [] ==> active[0] in active;
      if err != {} {
        SetFailure(Uncertain, id);
      } else if active != [] {
        if active[0] != id { SetFailure(Uncertain, id); }
      } else {
        RecordExit(id);
      }
    }

    /** Nothing is up: the profile's copies are removed and its connection time is cleared, or a
        conflict is reported. */
    method RecordExit(id: Id)
      requires Valid() && lib.record.desired == id && net.up == {}
      modifies this`executions, this`lifecycle, this`subject, lib`record, lib`edits, lib`copies, lib`faults, lib`calls
      ensures Valid() && Settled()
      ensures lib.record.profiles == old(lib.record.profiles) && lib.record.desired == old(lib.record.desired)
      ensures OthersKept(id, old(lib.copies), lib.copies)
      ensures lifecycle == Conflict || (lifecycle == Failing && lib.record.connectedAt == 0 && id !in executions)
      ensures old(lib.faults) <= lib.faults && (lib.faults == old(lib.faults) ==> lifecycle == Failing)
    {
      var err := CleanupExecutions(id, NoPath);
      if err == {} && lib.record.connectedAt != 0 {
        err := ReconcileConnection(id, 0);
      }
      SetFailure(if err == {} then Known else Uncertain, id);
    }

    /** handleUnexpectedExit, for any report taken from the queue. The promise it needs counts the
        report itself as not yet handled. */
    method HandleUnexpectedExit(exit: Exit) returns (ghost acts: seq<Act>)
      requires Valid() && gateFree
      requires lifecycle != Conflict ==> Faithful(lib.record, net.up, net.exits + [exit]) && net.up !! net.told
      modifies this, net, lib
      ensures Valid() && gateFree && Settled()
      ensures OnlyExits(old(net.up), old(net.exits), net.up, net.exits, net.told) && net.told == old(net.told)
      ensures lib.record.profiles == old(lib.record.profiles) && lib.record.desired == old(lib.record.desired)
      ensures !exit.cleanupProved || exit.path == NoPath ==> lifecycle == Conflict
      ensures exit.profile != old(lib.record.desired) ==>
        lib.record == old(lib.record) && (lifecycle == Conflict || lifecycle == old(lifecycle))
      ensures exit.profile != old(lib.record.desired) && lifecycle != Conflict ==> exit.profile !in executions
      ensures OthersKept(exit.profile, old(lib.copies), lib.copies)
      ensures exit.profile == old(lib.record.desired) && net.up != {} ==>
        forall p :: p in Entry(old(executions), exit.profile) && p != exit.path ==> p in Entry(executions, exit.profile)
      ensures old(lifecycle) == Conflict && lifecycle != Conflict ==>
        lifecycle == Failing && net.up == {} && lib.record.connectedAt == 0 && exit.profile !in executions
      ensures exit.profile == old(lib.record.desired) && lifecycle != Conflict ==>
        (net.up == {} && lifecycle == Failing && lib.record.connectedAt == 0)
        || (lifecycle == old(lifecycle) && (net.up != {} || Queued(net.exits, exit.profile)))
      ensures net.trace == old(net.trace) + acts && forall a :: a in acts ==> a.Observed? && a.during <= old(net.up)
      ensures Faults() == old(Faults()) && exit.cleanupProved && exit.path != NoPath ==>
        old(Equipped(lib.record.profiles) && lifecycle != Conflict) ==> lifecycle != Conflict
    {
      acts := [];
      gateFree := false;
      var cleanupErr := CleanupExecutionPath(exit.profile, exit.path);
      if !exit.cleanupProved || cleanupErr != {} {
        SetFailure(Uncertain, exit.profile);
      } else if lib.record.desired != exit.profile {
        assert Queued(net.exits + [exit], lib.record.desired) ==> Queued(net.exits, lib.record.desired);
        var err := CleanupExecutions(exit.profile, NoPath);
        if err != {} { SetFailure(Uncertain, exit.profile); }
      } else {
        acts := HandleDesiredExit(exit.profile);
      }
      gateFree := true;
    }
  }

  // ----- whole runs -------------------------------------------------------------------------

  /** What may happen to a running server, in any order. */
  datatype Event =
    | DoConnect(id: Id)
    | DoDisconnect
    | DoRemove(id: Id)
    | Deliver(index: nat)        // one of the queued exit reports reaches its handler
    | Import(added: set<Id>)     // a batch of profiles is committed under the gate
    | EditPreferences            // preferences or metadata change without the gate
    | Exits                      // an owned process exits, reports arrive

  /** The ways out of a conflict: a disconnection that proved everything stopped and removed, or a
      handled exit report. */
  ghost predicate LeavesConflict(m: Manager, event: Event)
    reads m, m.lib
  {
    || (event.DoDisconnect? && m.lifecycle == Disconnected && m.executions == map[] && m.lib.copies == map[]
        && m.lib.record.desired == "")
    || (event.Deliver? && m.lifecycle == Failing && m.lib.record.connectedAt == 0)
  }

  /** One event. A report is taken from the queue before its handler runs. */
  method Happen(m: Manager, event: Event) returns (ghost acts: seq<Act>)
    requires m.Valid() && m.gateFree && m.Settled() && AtMostOne(m.net.up)
    modifies m, m.net, m.lib
    ensures m.Valid() && m.gateFree && m.Settled() && AtMostOne(m.net.up)
    ensures m.net.trace == old(m.net.trace) + acts && OneTunnel(acts) && EndsUnproved(acts)
    ensures event.Deliver? && event.index < |old(m.net.exits)| ==>
      old(m.net.exits)[..event.index] + old(m.net.exits)[event.index + 1..] <= m.net.exits
    ensures old(m.lifecycle) == Conflict && m.lifecycle != Conflict ==> m.net.up == {} && LeavesConflict(m, event)
    ensures old(m.lifecycle) == Conflict && (event.DoConnect? || event.DoRemove?) ==>
      acts == [] && m.lib.calls == old(m.lib.calls)
  {
    acts := [];
    match event {
      case DoConnect(id) =>
        var errs;
        ghost var began, previous, unreadable;
        errs, began, previous, unreadable, acts := m.Connect(id);
      case DoDisconnect =>
        var errs;
        errs, acts := m.Disconnect();
        NoStartEnds(acts);
      case DoRemove(id) =>
        var errs;
        errs, acts := m.Remove(id);
        NoStartEnds(acts);
      case Deliver(index) =>
        if index < |m.net.exits| {
          acts := DeliverReport(m, index);
          NoStartEnds(acts);
        }
      case Import(added) =>
        m.lib.Import(added);
      case EditPreferences =>
        m.lib.Interfere();
      case Exits =>
        m.net.Interfere();
    }
  }

  method DeliverReport(m: Manager, index: nat) returns (ghost acts: seq<Act>)
    requires m.Valid() && m.gateFree && m.Settled() && AtMostOne(m.net.up) && index < |m.net.exits|
    modifies m, m.net, m.lib
    ensures m.Valid() && m.gateFree && m.Settled() && AtMostOne(m.net.up)
    ensures m.net.trace == old(m.net.trace) + acts && OneTunnel(acts) && NoStart(acts)
    ensures old(m.net.exits)[..index] + old(m.net.exits)[index + 1..] <= m.net.exits
    ensures old(m.lifecycle) == Conflict && m.lifecycle != Conflict ==>
      m.net.up == {} && m.lifecycle == Failing && m.lib.record.connectedAt == 0
  {
    var exits := m.net.exits;
    var exit := exits[index];
    m.net.exits := exits[..index] + exits[index + 1..];
    if Queued(exits, m.lib.record.desired) {
      StillQueued(exits, index, m.lib.record.desired);
    }
    acts := m.HandleUnexpectedExit(exit);
  }

  /** Failed does not mean that nothing is up: a profile whose stored object does not validate fails
      to connect while another tunnel stays up. */
  method FailedWhileUp() returns (m: Manager)
    ensures m.Valid() && m.Settled() && m.lifecycle == Failing && m.net.up == {"one"}
  {
    var net := new Network({WireGuard}, (id: Id) => WireGuard, {}, {"one"});
    var lib := new Ledger(Record({"one", "two"}, "one", 1, false), {"two"});
    m := new Manager(net, lib);
    m.SetLifecycle(Active, "one");
    var errs;
    ghost var began, previous, unreadable, acts;
    errs, began, previous, unreadable, acts := m.Connect("two");
  }

  lemma StillQueued(exits: seq<Exit>, index: nat, id: Id)
    requires index < |exits| && Queued(exits, id)
    ensures Queued(exits[..index] + exits[index + 1..] + [exits[index]], id)
  {
    var k :| 0 <= k < |exits| && exits[k].profile == id;
    var left := exits[..index] + exits[index + 1..] + [exits[index]];
    assert left[if k < index then k else if k == index then |left| - 1 else k - 1] == exits[k];
  }

  /** Every run from a start of the server: startup reconciliation and then any events in any
      order, with any failures. At every action at most one tunnel was up, and after every event
      the desired-state promise holds or a conflict is reported. */
  method Run(m: Manager, script: seq<Event>) returns (ghost acts: seq<Act>)
    requires m.Valid() && m.gateFree && AtMostOne(m.net.up) && m.net.up !! m.net.told
    modifies m, m.net, m.lib
    ensures m.Valid() && m.gateFree && m.Settled() && AtMostOne(m.net.up)
    ensures m.net.trace == old(m.net.trace) + acts && OneTunnel(acts)
  {
    acts := m.ReconcileStartup();
    for k := 0 to |script|
      invariant m.Valid() && m.gateFree && m.Settled() && AtMostOne(m.net.up)
      invariant m.net.trace == old(m.net.trace) + acts && OneTunnel(acts)
    {
      ghost var more := Happen(m, script[k]);
      Joined(old(m.net.trace), acts, more);
      acts := acts + more;
    }
  }
}
