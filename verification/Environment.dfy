/** The world the manager acts on: the tunnels of the two protocols and the library's record of
    the desired connection. Every call may fail, and owned OpenVPN processes may exit by
    themselves before any call; `*` stands for the environment's choice. */
module Environment {
  import opened Contracts

  /** One backend action and the tunnels that may have been up at some instant of it. */
  datatype Act =
    | Observed(protocol: Protocol, during: set<Id>)
    | Started(id: Id, errs: Failure, during: set<Id>)
    | Stopped(id: Id, errs: Failure, during: set<Id>)
    | ShutDown(during: set<Id>)

  /** Every tunnel that went down between the two states has a queued exit report, unless it had
      been told to stop before; and no tunnel came up. */
  ghost predicate OnlyExits(up: set<Id>, exits: seq<Exit>, up': set<Id>, exits': seq<Exit>, told: set<Id>) {
    && up' <= up
    && exits <= exits'
    && forall p :: p in up && p !in up' && p !in told ==> Queued(exits', p)
  }

  /** The answer to one protocol's observation. */
  datatype Answer = Seen(active: seq<Id>) | Refused(errs: Failure)

  predicate NoDuplicates(s: seq<Id>) {
    forall i, j :: 0 <= i < j < |s| ==> s[i] != s[j]
  }

  class Network {
    const backends: set<Protocol>
    const protocolOf: Id -> Protocol
    const silent: set<Protocol>  // protocols whose tooling does not answer
    var up: set<Id>
    var exits: seq<Exit>
    var told: set<Id>  // told to stop without proof that they did: their own exit is not reported
    ghost var trace: seq<Act>
    ghost var blind: nat  // how many observations failed
    ghost var faults: nat

    constructor (backends: set<Protocol>, protocolOf: Id -> Protocol, silent: set<Protocol>, up: set<Id>)
      requires forall p :: p in up ==> protocolOf(p) == WireGuard
      ensures Valid() && this.up == up && exits == [] && told == {} && trace == []
      ensures this.backends == backends && this.protocolOf == protocolOf && this.silent == silent
    {
      this.backends, this.protocolOf, this.silent, this.up := backends, protocolOf, silent, up;
      this.exits, this.told, this.trace, this.blind, this.faults := [], {}, [], 0, 0;
    }

    /** OpenVPN tunnels are the one process this server owns; they need its backend. */
    ghost predicate Valid()
      reads this
    {
      && (forall a, b :: a in up && b in up && protocolOf(a) == OpenVPN && protocolOf(b) == OpenVPN ==> a == b)
      && (forall a :: a in up && protocolOf(a) == OpenVPN ==> OpenVPN in backends)
    }

    /** The owned OpenVPN process may exit by itself, which queues its exit report unless it was
        told to stop before; other reports, with arbitrary fields, may be queued too. */
    method Interfere()
      requires Valid()
      modifies this`up, this`exits
      ensures Valid() && OnlyExits(old(up), old(exits), up, exits, told)
      ensures forall p :: p in old(up) && protocolOf(p) == WireGuard ==> p in up
    {
      var others: seq<Exit> := *;
      exits := exits + others;
      var owned := set p | p in up && protocolOf(p) == OpenVPN;
      var exiting: bool := *;
      if exiting && owned != {} {
        var p :| p in owned;
        var path: Path, proved: bool := *, *;
        var report := Exit(p, path, proved);
        up := up - {p};
        if p !in told {
          exits := exits + [report];
          assert exits[|exits| - 1].profile == p;
        }
        assert forall q :: q in old(up) && q !in up ==> q == p;
      }
    }

    /** Observation without error is exact: it lists the managed tunnels of the protocol. */
    method Observe(protocol: Protocol, managed: set<Id>) returns (answer: Answer)
      requires Valid() && protocol in backends
      modifies this
      ensures Valid() && OnlyExits(old(up), old(exits), up, exits, told) && told == old(told)
      ensures trace == old(trace) + [Observed(protocol, old(up))]
      ensures answer.Seen? ==>
        && NoDuplicates(answer.active)
        && forall p :: p in answer.active <==> p in up && p in managed && protocolOf(p) == protocol
      ensures answer.Refused? ==> answer.errs != {} && answer.errs <= {IdentityConflict, Failed}
      ensures old(faults) <= faults && old(blind) <= blind && (faults == old(faults) ==> blind == old(blind))
      ensures blind == old(blind) ==> answer.Seen?
    {
      trace := trace + [Observed(protocol, up)];
      Interfere();
      var ok: bool := *;
      if !ok {
        faults, blind := faults + 1, blind + 1;
        var identity: bool := *;
        return Refused(if identity then {IdentityConflict} else {Failed});
      }
      var left := set p | p in up && p in managed && protocolOf(p) == protocol;
      var active: seq<Id> := [];
      while left != {}
        invariant NoDuplicates(active)
        invariant forall p :: p in active ==> p !in left
        invariant forall p :: p in active || p in left <==> p in up && p in managed && protocolOf(p) == protocol
        decreases left
      {
        var p :| p in left;
        active, left := active + [p], left - {p};
      }
      answer := Seen(active);
    }

    /** Available: the tooling of a protocol answers; that it never does is a fault. */
    method Available(protocol: Protocol) returns (errs: Failure)
      requires Valid() && protocol in backends
      modifies this`faults
      ensures old(faults) <= faults
      ensures faults == old(faults) ==> errs == {}
      ensures protocol in silent ==> errs != {}
    {
      var ok: bool := *;
      errs := {};
      if !ok || protocol in silent {
        faults, errs := faults + 1, {Failed};
      }
    }

    /** Start: the contract `StartMeets`; the single OpenVPN process refuses a second owner. */
    method Start(id: Id) returns (errs: Failure, ghost before: set<Id>)
      requires Valid() && protocolOf(id) in backends
      modifies this
      ensures Valid() && OnlyExits(old(up), old(exits), before, exits, old(told))
      ensures errs == {} ==> told == old(told) - {id}
      ensures errs != {} ==> told == if CleanupUnproved in errs then old(told) + {id} else old(told)
      ensures StartMeets(id in before, errs, id in up) && up <= before + {id} && before <= up + {id}
      ensures trace == old(trace) + [Started(id, errs, before + {id})] && errs <= {CleanupUnproved, Failed}
      ensures old(faults) <= faults && blind == old(blind)
      ensures faults == old(faults) && old(up) == {} ==> errs == {}
    {
      Interfere();
      before := up;
      var others := set p | p in up && p != id && protocolOf(p) == protocolOf(id) == OpenVPN;
      var ok: bool := *;
      if ok && others == {} {
        up, told, errs := up + {id}, told - {id}, {};
      } else {
        faults := faults + 1;
        var proved: bool, kept: bool := *, *;
        if proved || others != {} {
          errs := {Failed};
        } else {
          told, errs := told + {id}, {Failed, CleanupUnproved};
          if kept { up := up + {id}; }
        }
      }
      trace := trace + [Started(id, errs, before + {id})];
    }

    /** Stop: the contract `StopMeets`. */
    method Stop(id: Id) returns (errs: Failure, ghost before: set<Id>)
      requires Valid() && protocolOf(id) in backends
      modifies this
      ensures Valid() && OnlyExits(old(up), old(exits), before, exits, old(told))
      ensures told == if errs == {} then old(told) else old(told) + {id}
      ensures StopMeets(id in before, errs, id in up) && up <= before && before <= up + {id}
      ensures trace == old(trace) + [Stopped(id, errs, before)]
      ensures old(faults) <= faults && blind == old(blind)
      ensures faults == old(faults) ==> errs == {}
    {
      Interfere();
      before := up;
      var ok: bool, kept: bool := *, *;
      if ok {
        up, errs := up - {id}, {};
      } else {
        faults := faults + 1;
        if !kept { up := up - {id}; }
        told, errs := told + {id}, {Failed};
      }
      trace := trace + [Stopped(id, errs, before)];
    }

    /** Shutdown of every backend: OpenVPN stops its process without an exit report. */
    method Shutdown() returns (errs: Failure)
      requires Valid()
      modifies this
      ensures Valid() && up <= old(up) && old(exits) <= exits
      ensures forall p :: p in old(up) && protocolOf(p) == WireGuard ==> p in up
      ensures trace == old(trace) + [ShutDown(old(up))] && errs <= {Failed}
      ensures old(faults) <= faults && blind == old(blind)
      ensures faults == old(faults) ==> errs == {}
      ensures errs == {} ==> forall p :: p in up ==> protocolOf(p) == WireGuard
    {
      trace := trace + [ShutDown(up)];
      Interfere();
      var ok: bool, kept: bool := *, *;
      if ok || !kept { up := set p | p in up && protocolOf(p) == WireGuard; }
      errs := {};
      if !ok {
        told := told + set p | p in up && protocolOf(p) == OpenVPN;
        faults := faults + 1;
        errs := {Failed};
      }
    }
  }

  /** The part of the manifest that the manager reads. */
  datatype Record = Record(profiles: set<Id>, desired: Id, connectedAt: int, restore: bool)

  predicate Acceptable(r: Record) {
    && "" !in r.profiles
    && (r.desired != "" ==> r.desired in r.profiles)
    && 0 <= r.connectedAt
  }

  /** Preferences and metadata are edited without the manager's gate: they may change the
      startup mode at any time, and nothing else of the record. */
  predicate Same(a: Record, b: Record) {
    a == b.(restore := a.restore)
  }

  function Without(r: Record, id: Id): Record {
    if r.desired == id then r.(profiles := r.profiles - {id}, desired := "", connectedAt := 0)
    else r.(profiles := r.profiles - {id})
  }

  /** The store as the manager uses it. Its mutations promise `MutationMeets`, which
      `Store` proves of its own. */
  class Ledger {
    const damaged: set<Id>  // profiles whose stored object does not match its record
    var record: Record
    var copies: map<Path, Id>  // execution copies handed out and not yet proved removed
    var nextCopy: nat
    ghost var edits: nat       // how often the startup mode was changed by someone else
    ghost var calls: nat
    ghost var faults: nat

    constructor (record: Record, damaged: set<Id>)
      requires Acceptable(record)
      ensures Valid() && this.record == record && copies == map[] && this.damaged == damaged
    {
      this.damaged := damaged;
      this.record, this.copies, this.nextCopy := record, map[], 0;
      this.edits, this.calls, this.faults := 0, 0, 0;
    }

    ghost predicate Valid()
      reads this
    {
      && Acceptable(record)
      && forall p :: p in copies ==> p.Execution? && p.number < nextCopy
    }

    /** An edit of the preferences by someone else. */
    method Interfere()
      requires Valid()
      modifies this`record, this`edits
      ensures Valid() && Same(old(record), record)
      ensures old(edits) <= edits && (edits == old(edits) ==> record == old(record))
    {
      var restore: bool := *;
      if restore != record.restore {
        record, edits := record.(restore := restore), edits + 1;
      }
    }

    /** A committed import adds profiles and changes nothing else of the record. */
    method Import(added: set<Id>)
      requires Valid()
      modifies this`record, this`edits
      ensures Valid()
      ensures Same(record, old(record)) || Same(record, old(record).(profiles := old(record.profiles) + added))
      ensures old(edits) <= edits && (edits == old(edits) ==> record.restore == old(record.restore))
    {
      Interfere();
      var committed: bool := *;
      if committed && "" !in added {
        record := record.(profiles := record.profiles + added);
      }
    }

    method Mutate(candidate: Record) returns (errs: Failure)
      requires Valid() && Acceptable(candidate)
      modifies this`record, this`edits, this`faults
      ensures Valid() && MutationMeets(old(record), candidate, true, errs, record)
      ensures edits == old(edits)
      ensures errs <= {OutcomeAmbiguous, NotFound, Failed}
      ensures old(faults) <= faults
      ensures faults == old(faults) ==> errs == {}
    {
      var ok: bool, visible: bool := *, *;
      errs := {};
      if ok {
        record := candidate;
      } else {
        faults := faults + 1;
        if visible { record := candidate; }
        errs := if visible then {OutcomeAmbiguous} else {Failed};
      }
    }

    /** SetConnection: refused for an unknown profile or a negative time. */
    method SetConnection(desired: Id, connectedAt: int) returns (errs: Failure)
      requires Valid()
      modifies this`record, this`edits, this`faults, this`calls
      ensures Valid() && calls == old(calls) + 1 && errs <= {OutcomeAmbiguous, NotFound, Failed}
      ensures old(edits) <= edits && (edits == old(edits) ==> record.restore == old(record.restore))
      ensures errs == {} ==> Same(record, old(record).(desired := desired, connectedAt := connectedAt))
      ensures errs != {} ==> Same(record, old(record))
                             || Same(record, old(record).(desired := desired, connectedAt := connectedAt))
      ensures old(faults) <= faults
      ensures faults == old(faults) && (desired == "" || desired in old(record.profiles)) && connectedAt >= 0 ==>
        errs == {}
    {
      calls := calls + 1;
      Interfere();
      var candidate := record.(desired := desired, connectedAt := connectedAt);
      if (desired != "" && desired !in record.profiles) || connectedAt < 0 {
        errs := {Failed};
      } else {
        errs := Mutate(candidate);
      }
    }

    /** RepairDurability: settles an ambiguous write; what is visible does not change. */
    method RepairDurability() returns (errs: Failure)
      requires Valid()
      modifies this`record, this`edits, this`faults, this`calls
      ensures Valid() && calls == old(calls) + 1
      ensures old(edits) <= edits && (edits == old(edits) ==> record.restore == old(record.restore))
      ensures errs <= {OutcomeAmbiguous, NotFound, Failed} && Same(record, old(record))
      ensures old(faults) <= faults
      ensures faults == old(faults) ==> errs == {}
    {
      calls := calls + 1;
      Interfere();
      var ok: bool := *;
      errs := {};
      if !ok {
        faults := faults + 1;
        errs := {OutcomeAmbiguous};
      }
    }

    /** Remove of one library profile. */
    method Remove(id: Id) returns (errs: Failure)
      requires Valid() && id in record.profiles
      modifies this`record, this`edits, this`faults, this`calls
      ensures Valid() && calls == old(calls) + 1 && errs <= {OutcomeAmbiguous, NotFound, Failed}
      ensures old(edits) <= edits && (edits == old(edits) ==> record.restore == old(record.restore))
      ensures errs == {} ==> Same(record, Without(old(record), id))
      ensures errs != {} ==> Same(record, old(record)) || Same(record, Without(old(record), id))
      ensures old(faults) <= faults
      ensures faults == old(faults) ==> errs == {}
    {
      calls := calls + 1;
      Interfere();
      errs := Mutate(Without(record, id));
    }

    /** Resolve: the stored object still matches its record; a damaged one is a fault. */
    method Resolve(id: Id) returns (errs: Failure)
      requires Valid()
      modifies this`faults, this`calls
      ensures Valid() && calls == old(calls) + 1 && errs <= {OutcomeAmbiguous, NotFound, Failed}
      ensures errs == {} ==> id in record.profiles && id !in damaged
      ensures old(faults) <= faults
      ensures id in record.profiles && faults == old(faults) ==> errs == {}
    {
      calls := calls + 1;
      if id !in record.profiles { return {NotFound}; }
      var ok: bool := *;
      if ok && id !in damaged { return {}; }
      faults := faults + 1;
      errs := {Failed};
    }

    /** PrepareExecution: a private verified copy under a name never used before. */
    method PrepareExecution(id: Id) returns (errs: Failure, path: Path)
      requires Valid()
      modifies this`copies, this`nextCopy, this`faults, this`calls
      ensures Valid() && calls == old(calls) + 1 && errs <= {OutcomeAmbiguous, NotFound, Failed}
      ensures old(nextCopy) <= nextCopy
      ensures errs == {} ==> path.Execution? && path.number >= old(nextCopy) && copies == old(copies)[path := id]
      ensures errs != {} ==> copies == old(copies) && CleanupUnproved !in errs
      ensures old(faults) <= faults
      ensures id in record.profiles && faults == old(faults) ==> errs == {}
    {
      calls := calls + 1;
      path := NoPath;
      if id !in record.profiles { return {NotFound}, NoPath; }
      var ok: bool := *;
      if !ok || id in damaged {
        faults := faults + 1;
        return {Failed}, NoPath;
      }
      path := Execution(nextCopy);
      copies, nextCopy := copies[path := id], nextCopy + 1;
      errs := {};
    }

    /** The cleanup function of one execution copy: removes it or proves nothing; calling it
        again after success does nothing. */
    method Cleanup(path: Path) returns (errs: Failure)
      requires Valid()
      modifies this`copies, this`faults, this`calls
      ensures Valid() && calls == old(calls) + 1 && errs <= {OutcomeAmbiguous, NotFound, Failed}
      ensures errs == {} ==> copies == old(copies) - {path}
      ensures errs != {} ==> copies == old(copies)
      ensures old(faults) <= faults
      ensures faults == old(faults) ==> errs == {}
    {
      calls := calls + 1;
      errs := {};
      if path !in copies { return; }
      var ok: bool := *;
      if ok {
        copies := copies - {path};
      } else {
        faults := faults + 1;
        errs := {Failed};
      }
    }
  }
}
