/** The OpenVPN adapter (internal/tunnel/openvpn_adapter.go) over the one process its backend owns.
    `OpenVPNProcess` proves what the backend's calls do to that process; here each of them is one
    step with any of its outcomes. */
module OpenVPNAdapter {
  import opened Contracts

  datatype Owner = Nobody | Owner(id: Id, path: Path)

  /** What State reports of the owned process; present: some process of its session is left. */
  datatype Proc = NoProcess | Proc(running: bool, ready: bool, present: bool, accepted: bool, stopping: bool)

  class Adapter {
    var current: Owner
    var proc: Proc
    var exits: seq<Exit>  // what the manager's handler was given
    var late: seq<bool>   // exits not yet delivered to it: whether their cleanup was proved
    ghost var owners: seq<Owner>  // who owned their processes
    ghost var since: seq<nat>     // and how often the owner had changed by then
    ghost var changes: nat
    ghost var faults: nat

    constructor ()
      ensures Valid() && current == Nobody && proc == NoProcess && exits == [] && late == []
    {
      current, proc, exits, late, faults := Nobody, NoProcess, [], [], 0;
      owners, since, changes := [], [], 0;
    }

    /** A running process is in its own session, and ready once it was accepted; an exit that waits for
        its delivery is its owner's while the owner has not changed. */
    ghost predicate Valid()
      reads this
    {
      && (proc.Proc? ==>
            (proc.running ==> proc.present) && (proc.accepted && proc.running && !proc.stopping ==> proc.ready))
      && |late| == |owners| == |since|
      && forall k :: 0 <= k < |late| ==> since[k] <= changes && (since[k] == changes ==> current == owners[k])
    }

    method SetCurrent(owner: Owner)
      requires Valid()
      modifies this`current, this`changes
      ensures Valid() && current == owner && changes == old(changes) + 1
    {
      current, changes := owner, changes + 1;
    }

    /** The profile's tunnel is up: its process runs and has signalled readiness. */
    predicate IsUp(id: Id)
      reads this`current, this`proc
    {
      current.Owner? && current.id == id && proc.Proc? && proc.running && proc.ready
    }

    method Try() returns (ok: bool)
      modifies this`faults
      ensures faults == if ok then old(faults) else old(faults) + 1
    {
      ok := *;
      if !ok { faults := faults + 1; }
    }

    /** The process exits by itself. Its exit is to be delivered exactly when it was accepted and no stop
        was requested before; until then its profile stays the owner. */
    method ExitByItself()
      requires Valid() && proc.Proc? && proc.running
      modifies this`proc, this`late, this`owners, this`since
      ensures Valid() && (forall id :: !IsUp(id)) && exits == old(exits)
      ensures if old(proc).accepted && !old(proc).stopping
        then (exists proved :: late == old(late) + [proved])
             && owners == old(owners) + [current] && since == old(since) + [changes]
        else late == old(late) && owners == old(owners) && since == old(since)
      ensures if old(proc).accepted && !old(proc).stopping
        then proc == NoProcess || proc == old(proc).(running := false, stopping := true)
        else proc.Proc? && proc == old(proc).(running := false, present := proc.present)
    {
      var left := *;
      if proc.accepted && !proc.stopping {
        proc := if left then Proc(false, proc.ready, true, true, true) else NoProcess;
        late, owners, since := late + [!left], owners + [current], since + [changes];
      } else {
        proc := proc.(running := false, present := left);
      }
    }

    /** unexpectedExit: an exit is delivered, under the profile that is the owner now. That is the profile
        of the process that exited unless the owner has changed since, which Start cannot do; without
        an owner nothing is reported. */
    method Deliver()
      requires Valid() && late != []
      modifies this`current, this`changes, this`exits, this`late, this`owners, this`since
      ensures Valid() && current == Nobody && late == old(late)[1..]
      ensures old(current == Nobody) ==> exits == old(exits)
      ensures old(current.Owner?) ==> exits == old(exits) + [Exit(old(current).id, old(current).path, old(late)[0])]
      ensures old(since[0] == changes) ==> old(current == owners[0])
    {
      var proved, owner := late[0], current;
      late, owners, since := late[1..], owners[1..], since[1..];
      SetCurrent(Nobody);
      if owner.Owner? { exits := exits + [Exit(owner.id, owner.path, proved)]; }
    }

    /** Activate: refused while a process is owned; a failed start stops its process again, and
        reports unproved cleanup when it cannot. */
    method Activate() returns (errs: Failure)
      requires Valid()
      modifies this`proc, this`faults
      ensures Valid()
      ensures errs == {} ==> old(proc) == NoProcess && proc == Proc(true, true, true, true, false)
      ensures errs != {} && CleanupUnproved !in errs ==> proc == old(proc)
      ensures CleanupUnproved in errs ==> proc.Proc? && proc.present && !proc.accepted && proc.stopping
      ensures errs <= {Failed, CleanupUnproved}
      ensures old(faults) <= faults && (errs == {} <==> faults == old(faults) && old(proc) == NoProcess)
      ensures CleanupUnproved in errs ==> faults >= old(faults) + 2
    {
      var inspected := Try();
      if !inspected || proc != NoProcess { return {Failed}; }
      var started := Try();
      if started {
        proc := Proc(true, true, true, true, false);
        return {};
      }
      var cleaned := Try();  // the stop of the failed process
      var running, ready := *, *;
      if cleaned { return {Failed}; }
      proc := Proc(running, ready, true, false, true);
      errs := {Failed, CleanupUnproved};
    }

    /** Deactivate: nil means that no process is owned; a failed stop leaves it flagged as stopping. */
    method Deactivate() returns (errs: Failure)
      requires Valid()
      modifies this`proc, this`faults
      ensures Valid()
      ensures errs == {} ==> proc == NoProcess
      ensures errs != {} ==> errs == {Failed} && proc.Proc? && old(proc).Proc? && proc.stopping
      ensures errs != {} ==> (proc.running ==> old(proc).running) && (proc.ready ==> old(proc).ready)
      ensures old(faults) <= faults && (faults == old(faults) ==> errs == {})
    {
      if proc == NoProcess { return {}; }
      var stopped := Try();
      if stopped {
        proc := NoProcess;
        return {};
      }
      var running := *;
      proc := proc.(stopping := true, running := running && proc.running, present := true);
      errs := {Failed};
    }

    /** Start meets the manager's contract. */
    method Start(id: Id, path: Path) returns (errs: Failure)
      requires Valid() && path != NoPath
      modifies this
      ensures Valid() && exits == old(exits)
      ensures StartMeets(old(IsUp(id)), errs, IsUp(id))
      ensures forall other :: other != id && IsUp(other) ==> old(IsUp(other))
      ensures errs == {} ==> current == Owner(id, path)
      ensures old(current).Owner? ==> errs == {Failed} && unchanged(this)
      ensures old(faults) <= faults
      ensures CleanupUnproved in errs ==> faults >= old(faults) + 2
      ensures faults == old(faults) && old(current) == Nobody && old(proc) == NoProcess ==> errs == {}
    {
      if current != Nobody { return {Failed}; }
      SetCurrent(Owner(id, path));
      errs := Activate();
      if errs != {} { SetCurrent(Nobody); }
    }

    /** Stop meets the manager's contract, and refuses to stop another profile's process. */
    method Stop(id: Id) returns (errs: Failure)
      requires Valid()
      modifies this
      ensures Valid() && exits == old(exits)
      ensures StopMeets(old(IsUp(id)), errs, IsUp(id))
      ensures errs == {} ==> proc == NoProcess && current == Nobody
      ensures old(current).Owner? && old(current).id != id ==>
        errs == {IdentityConflict, Failed} && unchanged(this)
      ensures forall other :: IsUp(other) ==> old(IsUp(other))
      ensures old(faults) <= faults
      ensures faults == old(faults) && (old(current) == Nobody || old(current).id == id) ==> errs == {}
    {
      if current.Owner? && current.id != id { return {IdentityConflict, Failed}; }
      errs := Deactivate();
      if errs == {} { SetCurrent(Nobody); }
    }

    /** Observe without an error lists exactly the managed profile that is up. */
    method Observe(managed: set<Id>) returns (errs: Failure, active: seq<Id>)
      requires Valid()
      ensures errs == {} ==> |active| <= 1 && forall id :: id in active <==> id in managed && IsUp(id)
      ensures errs == {} ==> forall id :: IsUp(id) ==> id in managed
      ensures errs <= {IdentityConflict, Failed}
      ensures errs != {} <==>
        && proc.Proc?
        && if proc.running && proc.ready then current == Nobody || current.id !in managed else proc.present
      ensures errs != {} ==> errs == if proc.running && proc.ready then {IdentityConflict} else {Failed}
    {
      active := [];
      if proc == NoProcess { return {}, []; }
      if proc.present && (!proc.running || !proc.ready) { return {Failed}, []; }
      if !proc.running || !proc.ready { return {}, []; }
      if current == Nobody { return {IdentityConflict}, []; }
      if current.id in managed { return {}, [current.id]; }
      errs := {IdentityConflict};
    }

    /** Shutdown stops the process without a report. */
    method Shutdown() returns (errs: Failure)
      requires Valid()
      modifies this
      ensures Valid() && exits == old(exits)
      ensures errs == {} ==> proc == NoProcess && current == Nobody
      ensures forall id :: IsUp(id) ==> old(IsUp(id))
      ensures old(faults) <= faults && (faults == old(faults) ==> errs == {})
    {
      errs := Deactivate();
      if errs == {} { SetCurrent(Nobody); }
    }
  }
}
