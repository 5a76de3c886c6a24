/** The WireGuard backend (internal/tunnel/wireguard.go) over the wg and wg-quick tools, each of whose
    runs may fail, with or without its effect; an interface may even come up with another key. The
    effect of a run may land after the run returned, between two looks of the poll that waits for it;
    one that has not landed when its operation ends never does. */
module WireGuard {
  import opened Contracts

  /** What the backend needs of a profile. */
  datatype Tunnel = Tunnel(id: Id, identifier: string, key: string)

  /** An effect that is still to land, after so many more looks. */
  datatype Late = Nothing | Appears(name: string, key: string, looks: nat) | Vanishes(name: string, looks: nat)

  type Interfaces = map<string, string>

  /** The effect is on this interface, which is not yet as the effect will leave it. */
  predicate Pending(late: Late, interfaces: Interfaces, name: string) {
    match late
    case Nothing => true
    case Appears(n, _, _) => n == name && name !in interfaces
    case Vanishes(n, _) => n == name && name in interfaces
  }

  /** The interfaces once the late effect has landed. */
  function Landed(late: Late, interfaces: Interfaces): Interfaces {
    match late
    case Nothing => interfaces
    case Appears(name, key, _) => interfaces[name := key]
    case Vanishes(name, _) => interfaces - {name}
  }

  /** One look's worth of time: the late effect lands, or comes one look nearer. */
  function Later(late: Late): Late {
    if late.Nothing? || late.looks == 0 then Nothing else late.(looks := late.looks - 1)
  }

  lemma LaterLands(late: Late, interfaces: Interfaces)
    ensures Later(late) != Nothing ==> Landed(Later(late), interfaces) == Landed(late, interfaces)
  {
  }

  class Tools {
    const patience: nat  // without a fault, an effect lands within so many looks
    var interfaces: Interfaces  // the key of every interface
    var late: Late
    ghost var downs: seq<(string, string)>  // the interfaces given to wg-quick down, with their keys then
    ghost var faults: nat

    constructor (interfaces: Interfaces, patience: nat)
      ensures this.interfaces == interfaces && late == Nothing && downs == [] && this.patience == patience
    {
      this.interfaces, this.patience, this.late, this.downs, this.faults := interfaces, patience, Nothing, [], 0;
    }

    method Try() returns (ok: bool)
      modifies this`faults
      ensures faults == if ok then old(faults) else old(faults) + 1
    {
      ok := *;
      if !ok { faults := faults + 1; }
    }

    /** Time passes before a look. */
    method Tick()
      modifies this`interfaces, this`late
      ensures late == Later(old(late))
      ensures interfaces == if late == Nothing then Landed(old(late), old(interfaces)) else old(interfaces)
    {
      if Later(late) == Nothing { interfaces := Landed(late, interfaces); }
      late := Later(late);
    }

    /** An operation ends: what has not landed by then never does. */
    method End()
      modifies this`late
      ensures late == Nothing
    {
      late := Nothing;
    }

    /** wg show interfaces, after some time: every name once, in any order. */
    method Show() returns (ok: bool, names: seq<string>)
      modifies this`interfaces, this`late, this`faults
      ensures late == Later(old(late))
      ensures interfaces == if late == Nothing then Landed(old(late), old(interfaces)) else old(interfaces)
      ensures faults == if ok then old(faults) else old(faults) + 1
      ensures forall i, j :: 0 <= i < j < |names| ==> names[i] != names[j]
      ensures forall x :: x in names <==> x in interfaces
    {
      Tick();
      ok := Try();
      names := [];
      var left := interfaces.Keys;
      while left != {}
        invariant forall i, j :: 0 <= i < j < |names| ==> names[i] != names[j]
        invariant forall x :: x in names ==> x !in left
        invariant forall x :: x in names || x in left <==> x in interfaces
        decreases left
      {
        var x :| x in left;
        names, left := names + [x], left - {x};
      }
    }

    /** wg show of one interface's public key; None is a failed run or malformed output. */
    method PublicKey(name: string) returns (key: Option<string>)
      modifies this`faults
      ensures key.Some? ==> name in interfaces && key.value == interfaces[name] && faults == old(faults)
      ensures key.None? && name in interfaces ==> faults == old(faults) + 1
      ensures old(faults) <= faults
    {
      if name !in interfaces { return None; }
      var ok := Try();
      key := if ok then Some(interfaces[name]) else None;
    }

    /** wg-quick up: without a fault the interface has the profile's key, soon. */
    method Up(name: string, key: string) returns (ok: bool)
      requires name !in interfaces && late == Nothing
      modifies this`interfaces, this`late, this`faults
      ensures interfaces - {name} == old(interfaces) && Pending(late, interfaces, name) && !late.Vanishes?
      ensures old(faults) <= faults
      ensures faults == old(faults) ==> ok && Soon()
      ensures faults == old(faults) ==> var soon := Landed(late, interfaces); name in soon && soon[name] == key
    {
      ok := Try();
      var smooth, created, delayed := *, *, *;
      var actual: string, looks: nat := *, *;
      if !ok || !smooth { faults := faults + 1; }
      var effect := if ok && smooth then key else actual;
      if (ok && smooth) || created {
        if delayed && (!ok || !smooth || looks <= patience) {
          late := Appears(name, effect, looks);
        } else {
          interfaces := interfaces[name := effect];
        }
      }
      assert forall x :: x in interfaces && x != name <==> x in old(interfaces);
    }

    /** wg-quick down, of an interface whose key was read: without a fault it is absent, soon. */
    method Down(name: string) returns (ok: bool)
      requires name in interfaces && late == Nothing
      modifies this`interfaces, this`late, this`faults, this`downs
      ensures downs == old(downs) + [(name, old(interfaces)[name])]
      ensures interfaces == old(interfaces) || interfaces == old(interfaces) - {name}
      ensures Pending(late, interfaces, name) && !late.Appears?
      ensures old(faults) <= faults
      ensures faults == old(faults) ==> ok && Soon() && name !in Landed(late, interfaces)
    {
      downs := downs + [(name, interfaces[name])];
      ok := Try();
      var smooth, removed, delayed := *, *, *;
      var looks: nat := *;
      if !ok || !smooth { faults := faults + 1; }
      if (ok && smooth) || removed {
        if delayed && (!ok || !smooth || looks <= patience) {
          late := Vanishes(name, looks);
        } else {
          interfaces := interfaces - {name};
        }
      }
    }

    /** What is late lands within the patience. */
    predicate Soon()
      reads this`late
    {
      late.Nothing? || late.looks <= patience
    }
  }

  class Backend {
    const tools: Tools
    const polls: nat  // how often a wait looks again before its deadline
    const canActivate: bool  // wg-quick is there; otherwise the backend only observes

    constructor (tools: Tools, polls: nat, canActivate: bool)
      ensures this.tools == tools && this.polls == polls && this.canActivate == canActivate
    {
      this.tools, this.polls, this.canActivate := tools, polls, canActivate;
    }

    /** Available: wg answers, and wg-quick is there. */
    method Available() returns (errs: Failure)
      requires tools.late == Nothing
      modifies tools`interfaces, tools`late, tools`faults
      ensures tools.interfaces == old(tools.interfaces) && tools.late == Nothing
      ensures errs == {} || errs == {Unavailable}
      ensures old(tools.faults) <= tools.faults
      ensures errs == {} <==> canActivate && tools.faults == old(tools.faults)
    {
      var ok, names := tools.Show();
      errs := if ok && canActivate then {} else {Unavailable};
    }

    /** The tunnel is up: its interface exists with its key. */
    predicate IsUp(t: Tunnel)
      reads tools`interfaces
    {
      HasKey(tools.interfaces, t)
    }

    static predicate HasKey(interfaces: Interfaces, t: Tunnel) {
      t.identifier in interfaces && interfaces[t.identifier] == t.key
    }

    /** The poll waits longer than an effect takes without a fault. */
    predicate Patient() {
      tools.patience <= polls
    }

    /** interfacePresent. */
    method Present(name: string) returns (ok: bool, present: bool)
      modifies tools`interfaces, tools`late, tools`faults
      ensures tools.late == Later(old(tools.late))
      ensures tools.interfaces ==
        if tools.late == Nothing then Landed(old(tools.late), old(tools.interfaces)) else old(tools.interfaces)
      ensures ok ==> present == (name in tools.interfaces)
      ensures tools.faults == if ok then old(tools.faults) else old(tools.faults) + 1
    {
      var names;
      ok, names := tools.Show();
      present := name in names;
    }

    /** identityMatches. */
    method Matches(t: Tunnel) returns (ok: bool, matches: bool)
      modifies tools`faults
      ensures ok ==> t.identifier in tools.interfaces && matches == IsUp(t)
      ensures !ok && t.identifier in tools.interfaces ==> tools.faults > old(tools.faults)
      ensures old(tools.faults) <= tools.faults
    {
      var key := tools.PublicKey(t.identifier);
      ok := key.Some?;
      matches := ok && key.value == t.key;
    }

    /** What the poll for one interface waits for. */
    static predicate Expected(interfaces: Interfaces, t: Tunnel, present: bool) {
      if present then HasKey(interfaces, t) else t.identifier !in interfaces
    }

    predicate WillBe(t: Tunnel, present: bool)
      reads tools`interfaces, tools`late
    {
      Expected(Landed(tools.late, tools.interfaces), t, present)
    }

    /** Every look so far found the interface otherwise than expected, and a late effect has come so
        many looks nearer. */
    ghost predicate Polling(t: Tunnel, present: bool, k: nat, interfaces: Interfaces, late: Late)
      reads tools`interfaces, tools`late
    {
      && Pending(tools.late, tools.interfaces, t.identifier)
      && Landed(tools.late, tools.interfaces) == Landed(late, interfaces)
      && (tools.interfaces == interfaces || tools.interfaces == Landed(late, interfaces))
      && (k > 0 ==> (t.identifier in tools.interfaces) != present)
      && (tools.late == Nothing || (late != Nothing && tools.late.looks == late.looks - k))
      && (if present then !tools.late.Vanishes? else !tools.late.Appears?)
    }

    /** waitForProfile: looks until the interface is as expected, or the deadline has come. An effect
        that lands between two looks is seen by the next. */
    method WaitFor(t: Tunnel, present: bool) returns (errs: Failure)
      requires Pending(tools.late, tools.interfaces, t.identifier)
      requires if present then !tools.late.Vanishes? else !tools.late.Appears?
      modifies tools`interfaces, tools`late, tools`faults
      ensures errs == {} ==> Expected(tools.interfaces, t, present)
      ensures Pending(tools.late, tools.interfaces, t.identifier) && (present ==> !tools.late.Vanishes?)
      ensures tools.interfaces == old(tools.interfaces)
              || tools.interfaces == Landed(old(tools.late), old(tools.interfaces))
      ensures old(tools.faults) <= tools.faults
      ensures tools.faults == old(tools.faults) && Patient() && old(tools.Soon() && WillBe(t, present)) ==> errs == {}
      ensures errs <= {IdentityConflict, Failed}
      ensures present && tools.faults == old(tools.faults) ==>
        (IdentityConflict in errs <==> t.identifier in tools.interfaces && !IsUp(t))
    {
      ghost var interfaces, late := tools.interfaces, tools.late;
      for k := 0 to polls + 1
        invariant old(tools.faults) <= tools.faults && Polling(t, present, k, interfaces, late)
      {
        LaterLands(tools.late, tools.interfaces);
        var ok, seen := Present(t.identifier);
        if !ok { return {Failed}; }
        if seen == present {
          if !present { return {}; }
          var read, matches := Matches(t);
          if !read { return {Failed}; }
          return if matches then {} else {IdentityConflict};
        }
      }
      errs := {Failed};
    }

    /** cleanupFailedStart: the interface is absent again, or the cleanup is reported unproved. */
    method CleanupFailedStart(t: Tunnel, cause: Failure) returns (errs: Failure)
      requires cause != {} && CleanupUnproved !in cause
      requires Pending(tools.late, tools.interfaces, t.identifier) && !tools.late.Vanishes?
      modifies tools`faults, tools`interfaces, tools`late, tools`downs
      ensures errs == cause || (CleanupUnproved in errs && cause <= errs)
      ensures errs == cause ==> t.identifier !in tools.interfaces
      ensures tools.interfaces - {t.identifier} == old(tools.interfaces) - {t.identifier}
      ensures tools.downs == old(tools.downs) || tools.downs == old(tools.downs) + [(t.identifier, t.key)]
      ensures old(tools.faults) <= tools.faults
      ensures tools.faults == old(tools.faults) && Patient() && errs != cause ==>
        IdentityConflict in errs && t.identifier in tools.interfaces && !IsUp(t)
    {
      var unproved := cause + {CleanupUnproved};
      LaterLands(tools.late, tools.interfaces);
      var ok, present := Present(t.identifier);
      assert Pending(tools.late, tools.interfaces, t.identifier);
      if ok && !present { return cause; }
      if !ok { return unproved; }
      var read, matches := Matches(t);
      if !read || !matches { return unproved + {IdentityConflict}; }
      var down := tools.Down(t.identifier);
      if !down { return unproved; }
      var waited := WaitFor(t, false);
      if waited != {} { return unproved; }
      errs := cause;
    }

    /** Start: nil means up with the profile's key; an error without unproved cleanup leaves the name
        as it was found; no other interface is touched; and wg-quick down runs only of an interface
        with the profile's key. */
    method Start(t: Tunnel) returns (errs: Failure)
      requires tools.late == Nothing
      modifies tools`faults, tools`interfaces, tools`late, tools`downs
      ensures !canActivate ==> errs == {Unavailable} && unchanged(tools)
      ensures StartMeets(old(IsUp(t)), errs, IsUp(t)) && tools.late == Nothing
      ensures errs != {} && CleanupUnproved !in errs ==> tools.interfaces == old(tools.interfaces)
      ensures tools.interfaces - {t.identifier} == old(tools.interfaces) - {t.identifier}
      ensures old(t.identifier in tools.interfaces) ==>
        errs != {} && tools.interfaces == old(tools.interfaces) && tools.downs == old(tools.downs)
      ensures old(t.identifier in tools.interfaces) && canActivate && tools.faults == old(tools.faults) ==>
        errs == {IdentityConflict}
      ensures CleanupUnproved in errs && Patient() && tools.faults <= old(tools.faults) + 1 ==>
        t.identifier in tools.interfaces && !IsUp(t)
      ensures tools.downs == old(tools.downs) || tools.downs == old(tools.downs) + [(t.identifier, t.key)]
      ensures old(tools.faults) <= tools.faults
      ensures tools.faults == old(tools.faults) && Patient() && canActivate ==>
        old(t.identifier !in tools.interfaces) ==> errs == {}
    {
      if !canActivate { return {Unavailable}; }
      var ok, present := Present(t.identifier);
      if !ok { return {Failed}; }
      if present { return {IdentityConflict}; }
      errs := BringUp(t);
      tools.End();
    }

    /** The part of Start after its name was found free. */
    method BringUp(t: Tunnel) returns (errs: Failure)
      requires t.identifier !in tools.interfaces && tools.late == Nothing
      modifies tools`faults, tools`interfaces, tools`late, tools`downs
      ensures errs == {} ==> IsUp(t)
      ensures errs != {} && CleanupUnproved !in errs ==> t.identifier !in tools.interfaces
      ensures tools.interfaces - {t.identifier} == old(tools.interfaces)
      ensures tools.downs == old(tools.downs) || tools.downs == old(tools.downs) + [(t.identifier, t.key)]
      ensures old(tools.faults) <= tools.faults
      ensures tools.faults == old(tools.faults) && Patient() ==> errs == {}
      ensures CleanupUnproved in errs && Patient() && tools.faults <= old(tools.faults) + 1 ==>
        t.identifier in tools.interfaces && !IsUp(t)
    {
      var up := tools.Up(t.identifier, t.key);
      if !up {
        errs := CleanupFailedStart(t, {Failed});
      } else {
        errs := WaitFor(t, true);
        if errs != {} { errs := CleanupFailedStart(t, errs); }
      }
    }

    /** Stop: nil means absent; it never brings anything up or touches another interface; and
        wg-quick down runs only of an interface with the profile's key. */
    method Stop(t: Tunnel) returns (errs: Failure)
      requires tools.late == Nothing
      modifies tools`faults, tools`interfaces, tools`late, tools`downs
      ensures !canActivate ==> errs == {Unavailable} && unchanged(tools)
      ensures StopMeets(old(IsUp(t)), errs, IsUp(t)) && tools.late == Nothing
      ensures errs == {} ==> t.identifier !in tools.interfaces
      ensures tools.interfaces == old(tools.interfaces) || tools.interfaces == old(tools.interfaces) - {t.identifier}
      ensures tools.downs == old(tools.downs) || tools.downs == old(tools.downs) + [(t.identifier, t.key)]
      ensures old(tools.faults) <= tools.faults
      ensures old(t.identifier in tools.interfaces && !IsUp(t)) && canActivate ==>
        tools.downs == old(tools.downs) && (tools.faults == old(tools.faults) ==> errs == {IdentityConflict})
      ensures tools.faults == old(tools.faults) && Patient() && canActivate ==>
        old(t.identifier !in tools.interfaces || IsUp(t)) ==> errs == {}
    {
      if !canActivate { return {Unavailable}; }
      var ok, present := Present(t.identifier);
      if !ok { return {Failed}; }
      if !present { return {}; }
      var read, matches := Matches(t);
      if !read { return {Failed}; }
      if !matches { return {IdentityConflict}; }
      errs := BringDown(t);
      tools.End();
    }

    /** The part of Stop after the key matched. */
    method BringDown(t: Tunnel) returns (errs: Failure)
      requires IsUp(t) && tools.late == Nothing
      modifies tools`faults, tools`interfaces, tools`late, tools`downs
      ensures errs == {} ==> t.identifier !in tools.interfaces
      ensures tools.interfaces == old(tools.interfaces) || tools.interfaces == old(tools.interfaces) - {t.identifier}
      ensures tools.downs == old(tools.downs) + [(t.identifier, t.key)]
      ensures old(tools.faults) <= tools.faults
      ensures tools.faults == old(tools.faults) && Patient() ==> errs == {}
    {
      var down := tools.Down(t.identifier);
      if !down { return {Failed}; }
      errs := WaitFor(t, false);
    }

    /** Observe: without an error it lists exactly the tunnels that are up, and no managed name is
        taken by another key. */
    method Observe(tunnels: seq<Tunnel>) returns (errs: Failure, active: seq<Id>)
      requires tools.late == Nothing
      modifies tools`interfaces, tools`late, tools`faults
      ensures tools.interfaces == old(tools.interfaces) && tools.late == Nothing
      ensures errs == {} ==> forall k :: 0 <= k < |tunnels| ==>
        (tunnels[k].identifier in tools.interfaces <==> IsUp(tunnels[k]))
      ensures errs == {} ==>
        forall id :: id in active <==> exists k :: 0 <= k < |tunnels| && tunnels[k].id == id && IsUp(tunnels[k])
      ensures old(tools.faults) <= tools.faults
      ensures errs <= {IdentityConflict, Failed}
      ensures errs != {} && tools.faults == old(tools.faults) ==> errs == {IdentityConflict}
      ensures errs != {} && tools.faults == old(tools.faults) ==>
        (exists i, j :: 0 <= i < j < |tunnels| && tunnels[i].identifier == tunnels[j].identifier)
        || (exists k :: 0 <= k < |tunnels| && tunnels[k].identifier in tools.interfaces && !IsUp(tunnels[k]))
    {
      active := [];
      var ok, names := tools.Show();
      if !ok { return {Failed}, []; }
      var byName: map<string, Tunnel>;
      errs, byName := ByName(tunnels);
      if errs != {} { return; }
      for n := 0 to |names|
        invariant old(tools.faults) <= tools.faults
        invariant tools.interfaces == old(tools.interfaces) && tools.late == Nothing
        invariant forall j :: 0 <= j < n && names[j] in byName ==> IsUp(byName[names[j]])
        invariant forall id :: id in active <==>
          exists j :: 0 <= j < n && names[j] in byName && byName[names[j]].id == id
      {
        if names[n] in byName {
          var t := byName[names[n]];
          var k :| 0 <= k < |tunnels| && tunnels[k] == t;
          var read, matches := Matches(t);
          if !read { return {Failed}, []; }
          if !matches { return {IdentityConflict}, []; }
          active := active + [t.id];
        }
      }
      ActiveExact(tunnels, byName, names, active);
      errs := {};
    }

    lemma ActiveExact(tunnels: seq<Tunnel>, byName: map<string, Tunnel>, names: seq<string>, active: seq<Id>)
      requires forall k :: 0 <= k < |tunnels| ==>
        tunnels[k].identifier in byName && byName[tunnels[k].identifier] == tunnels[k]
      requires forall x :: x in byName ==> byName[x] in tunnels && byName[x].identifier == x
      requires forall x :: x in names <==> x in tools.interfaces
      requires forall j :: 0 <= j < |names| && names[j] in byName ==> IsUp(byName[names[j]])
      requires forall id :: id in active <==>
        exists j :: 0 <= j < |names| && names[j] in byName && byName[names[j]].id == id
      ensures forall k :: 0 <= k < |tunnels| ==> (tunnels[k].identifier in tools.interfaces <==> IsUp(tunnels[k]))
      ensures forall id :: id in active <==> exists k :: 0 <= k < |tunnels| && tunnels[k].id == id && IsUp(tunnels[k])
    {
      forall k | 0 <= k < |tunnels| && tunnels[k].identifier in tools.interfaces ensures IsUp(tunnels[k]) {
        var j :| 0 <= j < |names| && names[j] == tunnels[k].identifier;
      }
      forall id | id in active ensures exists k :: 0 <= k < |tunnels| && tunnels[k].id == id && IsUp(tunnels[k]) {
        var j :| 0 <= j < |names| && names[j] in byName && byName[names[j]].id == id;
        var k :| 0 <= k < |tunnels| && tunnels[k] == byName[names[j]];
      }
      forall k | 0 <= k < |tunnels| && IsUp(tunnels[k]) ensures tunnels[k].id in active {
        var j :| 0 <= j < |names| && names[j] == tunnels[k].identifier;
      }
    }
  }

  /** The managed names; two profiles with one name are a conflict. */
  method ByName(tunnels: seq<Tunnel>) returns (errs: Failure, byName: map<string, Tunnel>)
    ensures errs == {} <==> forall i, j :: 0 <= i < j < |tunnels| ==> tunnels[i].identifier != tunnels[j].identifier
    ensures errs == {} || errs == {IdentityConflict}
    ensures errs == {} ==>
      && (forall k :: 0 <= k < |tunnels| ==>
            tunnels[k].identifier in byName && byName[tunnels[k].identifier] == tunnels[k])
      && (forall x :: x in byName ==> byName[x] in tunnels && byName[x].identifier == x)
  {
    errs, byName := {}, map[];
    for k := 0 to |tunnels|
      invariant forall i, j :: 0 <= i < j < k ==> tunnels[i].identifier != tunnels[j].identifier
      invariant forall j :: 0 <= j < k ==>
        tunnels[j].identifier in byName && byName[tunnels[j].identifier] == tunnels[j]
      invariant forall x :: x in byName ==>
        byName[x].identifier == x && exists j :: 0 <= j < k && tunnels[j] == byName[x]
    {
      if tunnels[k].identifier in byName {
        var j :| 0 <= j < k && tunnels[j] == byName[tunnels[k].identifier];
        return {IdentityConflict}, byName;
      }
      byName := byName[tunnels[k].identifier := tunnels[k]];
    }
  }
}
