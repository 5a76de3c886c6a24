/** OpenStore and its recovery (internal/profiles/store.go): whatever a crash left, opening finds a
    complete manifest, makes it durable, and only then deletes what it does not name. */
module Opening {
  import opened Contracts
  import opened Text
  import opened Library
  import opened Disk
  import opened ProfileStore

  /** The special directories are empty and the protocol directories hold exactly the objects that
      the manifest names. */
  ghost predicate Clean(d: Disk, m: Manifest) {
    && d.transactions == map[] && d.garbage == {} && d.executions == map[]
    && forall s :: At(d.stored, s).now.Present? <==> Referenced(m.profiles, s)
  }

  method SweepTransactions(fs: FileSystem) returns (ok: bool)
    requires fs.Valid()
    modifies fs`disk, fs`log, fs`faults
    ensures fs.Valid() && fs.disk == old(fs.disk).(transactions := fs.disk.transactions)
    ensures ok ==> fs.disk.transactions == map[]
    ensures Extends(old(fs.log), fs.log, fs.disk.manifest.may)
    ensures old(fs.faults) <= fs.faults && (ok <==> fs.faults == old(fs.faults))
  {
    ok := fs.Try();
    if !ok { return; }
    var left := fs.disk.transactions.Keys;
    while left != {}
      invariant fs.Valid() && fs.disk == old(fs.disk).(transactions := fs.disk.transactions)
      invariant fs.disk.transactions.Keys == left
      invariant Extends(old(fs.log), fs.log, fs.disk.manifest.may)
      invariant fs.faults == old(fs.faults)
      decreases left
    {
      var txn :| txn in left;
      ok := fs.RemoveTransaction(txn);
      if !ok { return; }
      left := left - {txn};
    }
    ok := fs.Try();
  }

  method SweepGarbage(fs: FileSystem) returns (ok: bool)
    requires fs.Valid()
    modifies fs`disk, fs`log, fs`faults
    ensures fs.Valid() && fs.disk == old(fs.disk).(garbage := fs.disk.garbage)
    ensures ok ==> fs.disk.garbage == {}
    ensures Extends(old(fs.log), fs.log, fs.disk.manifest.may)
    ensures old(fs.faults) <= fs.faults && (ok <==> fs.faults == old(fs.faults))
  {
    ok := fs.Try();
    if !ok { return; }
    while fs.disk.garbage != {}
      invariant fs.Valid() && fs.disk == old(fs.disk).(garbage := fs.disk.garbage)
      invariant Extends(old(fs.log), fs.log, fs.disk.manifest.may)
      invariant fs.faults == old(fs.faults)
      decreases fs.disk.garbage
    {
      var trash :| trash in fs.disk.garbage;
      ok := fs.Scratch(fs.disk.(garbage := fs.disk.garbage - {trash}));
      if !ok { return; }
    }
    ok := fs.Try();
  }

  method SweepExecutions(fs: FileSystem) returns (ok: bool)
    requires fs.Valid()
    modifies fs`disk, fs`log, fs`faults
    ensures fs.Valid() && fs.disk == old(fs.disk).(executions := fs.disk.executions)
    ensures ok ==> fs.disk.executions == map[]
    ensures Extends(old(fs.log), fs.log, fs.disk.manifest.may)
    ensures old(fs.faults) <= fs.faults && (ok <==> fs.faults == old(fs.faults))
  {
    ok := fs.Try();
    if !ok { return; }
    var left := fs.disk.executions.Keys;
    while left != {}
      invariant fs.Valid() && fs.disk == old(fs.disk).(executions := fs.disk.executions)
      invariant fs.disk.executions.Keys == left
      invariant Extends(old(fs.log), fs.log, fs.disk.manifest.may)
      invariant fs.faults == old(fs.faults)
      decreases left
    {
      var n :| n in left;
      ok := fs.RemoveExecution(n);
      if !ok { return; }
      left := left - {n};
    }
    ok := fs.Try();
  }

  /** quarantineUnreferenced: an object that the durable manifest does not name is recognised by
      its structure, its name and the import policy, and disposed of. */
  method Quarantine(fs: FileSystem, s: Slot, ghost m: Manifest) returns (ok: bool)
    requires fs.Valid() && fs.disk.manifest.may == {Json(m)} && !Referenced(m.profiles, s)
    requires At(fs.disk.stored, s).now.Present? && fs.disk.garbage == {}
    modifies fs`disk, fs`log, fs`faults
    ensures fs.Valid() && fs.disk == old(fs.disk).(stored := fs.disk.stored, garbage := fs.disk.garbage)
    ensures NowElsewhere(old(fs.disk).stored, fs.disk.stored, s)
    ensures ok ==> At(fs.disk.stored, s).now.Absent? && fs.disk.garbage == {}
    ensures Extends(old(fs.log), fs.log, fs.disk.manifest.may)
    ensures old(fs.faults) <= fs.faults && (fs.faults == old(fs.faults) ==> ok)
  {
    ok := fs.Try();
    if !ok { return; }
    var files := At(fs.disk.stored, s).now.files;
    assert Proper(fs.policy, s, fs.disk.stored[s].now);
    if !IdPattern(s.id) || |files| != 1 { return false; }
    assert files.Keys != {};
    var name :| name in files;
    if !WellNamed(s.protocol, name) || ByteLength(files[name]) > MAX_PROFILE_BYTES { return false; }
    if fs.policy(s.protocol, files[name]).None? { return false; }
    ok := Dispose(fs, s, Quarantined(s.protocol, s.id));
    if ok { Settled(fs.policy, fs.disk.stored, s); }
  }

  lemma Settled(policy: Policy, stored: Objects, s: Slot)
    requires SoundObjects(policy, stored) && At(stored, s).may == {Absent}
    ensures At(stored, s).now.Absent?
  {
  }

  function PresentIn(stored: Objects, protocol: Protocol): set<Slot> {
    set s | s in stored && s.protocol == protocol && stored[s].now.Present?
  }

  ghost predicate OthersSame(before: Objects, after: Objects, protocol: Protocol) {
    forall s: Slot :: s.protocol != protocol ==> At(after, s).now == At(before, s).now
  }

  /** Of the objects present, those not left to look at are named by the manifest. */
  ghost predicate SweptBut(stored: Objects, protocol: Protocol, m: Manifest, left: set<Slot>) {
    && left <= PresentIn(stored, protocol)
    && forall s :: s in PresentIn(stored, protocol) && s !in left ==> Referenced(m.profiles, s)
  }

  /** One protocol directory is swept but for some of its objects, and nothing else has changed. */
  ghost predicate Sweeping(start: Disk, d: Disk, protocol: Protocol, m: Manifest, left: set<Slot>) {
    && d == start.(stored := d.stored, garbage := {})
    && OthersSame(start.stored, d.stored, protocol)
    && SweptBut(d.stored, protocol, m, left)
  }

  lemma SweptFurther(start: Disk, before: Disk, after: Disk, protocol: Protocol, m: Manifest, left: set<Slot>, s: Slot)
    requires Sweeping(start, before, protocol, m, left) && s in left
    requires after == before.(stored := after.stored, garbage := {})
    requires NowElsewhere(before.stored, after.stored, s)
    requires (At(after.stored, s).now.Absent? || Referenced(m.profiles, s))
    ensures Sweeping(start, after, protocol, m, left - {s})
  {
    assert s in PresentIn(before.stored, protocol);
    forall t | t != s ensures t in PresentIn(after.stored, protocol) <==> t in PresentIn(before.stored, protocol) {
      assert At(after.stored, t).now == At(before.stored, t).now;
    }
  }

  lemma SweepStart(d: Disk, protocol: Protocol, m: Manifest)
    requires d.garbage == {}
    ensures Sweeping(d, d, protocol, m, PresentIn(d.stored, protocol))
  {
  }

  lemma LeftPresent(start: Disk, d: Disk, protocol: Protocol, m: Manifest, left: set<Slot>, s: Slot)
    requires Sweeping(start, d, protocol, m, left) && s in left
    ensures At(d.stored, s).now.Present? && d.garbage == {} && d.manifest == start.manifest
  {
    assert s in PresentIn(d.stored, protocol);
  }

  method Consider(fs: FileSystem, s: Slot, m: Manifest) returns (ok: bool)
    requires fs.Valid() && fs.disk.manifest.may == {Json(m)}
    requires At(fs.disk.stored, s).now.Present? && fs.disk.garbage == {}
    modifies fs`disk, fs`log, fs`faults
    ensures fs.Valid() && fs.disk == old(fs.disk).(stored := fs.disk.stored, garbage := fs.disk.garbage)
    ensures NowElsewhere(old(fs.disk).stored, fs.disk.stored, s)
    ensures ok ==> (At(fs.disk.stored, s).now.Absent? || Referenced(m.profiles, s)) && fs.disk.garbage == {}
    ensures Extends(old(fs.log), fs.log, fs.disk.manifest.may)
    ensures old(fs.faults) <= fs.faults && (!ok ==> old(fs.faults) < fs.faults)
  {
    ok := true;
    if !Referenced(m.profiles, s) { ok := Quarantine(fs, s, m); }
  }

  method QuarantineNext(fs: FileSystem, protocol: Protocol, m: Manifest, ghost left: set<Slot>, s: Slot,
                        ghost start: Disk)
    returns (ok: bool)
    requires fs.Valid() && start.manifest.may == {Json(m)} && Sweeping(start, fs.disk, protocol, m, left) && s in left
    modifies fs`disk, fs`log, fs`faults
    ensures fs.Valid() && fs.disk == start.(stored := fs.disk.stored, garbage := fs.disk.garbage)
    ensures ok ==> Sweeping(start, fs.disk, protocol, m, left - {s})
    ensures Extends(old(fs.log), fs.log, start.manifest.may)
    ensures old(fs.faults) <= fs.faults && (!ok ==> old(fs.faults) < fs.faults)
  {
    LeftPresent(start, fs.disk, protocol, m, left, s);
    ghost var before := fs.disk;
    ok := Consider(fs, s, m);
    if ok { SweptFurther(start, before, fs.disk, protocol, m, left, s); }
  }

  method ReadNames(fs: FileSystem, protocol: Protocol) returns (ok: bool, names: set<Slot>)
    modifies fs`faults
    ensures names == PresentIn(fs.disk.stored, protocol)
    ensures fs.faults == if ok then old(fs.faults) else old(fs.faults) + 1
  {
    ok := fs.Try();
    names := PresentIn(fs.disk.stored, protocol);
  }

  /** The sweep of one protocol directory. */
  method QuarantineAll(fs: FileSystem, protocol: Protocol, m: Manifest) returns (ok: bool)
    requires fs.Valid() && fs.disk.manifest.may == {Json(m)} && fs.disk.garbage == {}
    modifies fs`disk, fs`log, fs`faults
    ensures fs.Valid() && fs.disk == old(fs.disk).(stored := fs.disk.stored, garbage := fs.disk.garbage)
    ensures ok ==> Sweeping(old(fs.disk), fs.disk, protocol, m, {})
    ensures Extends(old(fs.log), fs.log, old(fs.disk).manifest.may)
    ensures old(fs.faults) <= fs.faults && (!ok ==> old(fs.faults) < fs.faults)
  {
    var left;
    ok, left := ReadNames(fs, protocol);
    if !ok { return; }
    SweepStart(fs.disk, protocol, m);
    while left != {}
      invariant fs.Valid() && Sweeping(old(fs.disk), fs.disk, protocol, m, left)
      invariant Extends(old(fs.log), fs.log, old(fs.disk).manifest.may)
      invariant old(fs.faults) <= fs.faults
      decreases left
    {
      var s :| s in left;
      ok := QuarantineNext(fs, protocol, m, left, s, old(fs.disk));
      if !ok { return; }
      left := left - {s};
    }
    ok := true;
  }

  /** cleanupRemnants. */
  method CleanupRemnants(fs: FileSystem, m: Manifest) returns (ok: bool)
    requires fs.Valid() && fs.disk.manifest.may == {Json(m)}
    modifies fs`disk, fs`log, fs`faults
    ensures fs.Valid() && fs.disk.manifest == old(fs.disk.manifest)
    ensures ok ==> Clean(fs.disk, m)
    ensures Extends(old(fs.log), fs.log, fs.disk.manifest.may)
    ensures old(fs.faults) <= fs.faults && (fs.faults == old(fs.faults) ==> ok)
  {
    ok := SweepTransactions(fs);
    if ok { ok := SweepGarbage(fs); }
    if ok { ok := SweepExecutions(fs); }
    if ok { ok := QuarantineAll(fs, OpenVPN, m); }
    ghost var swept := fs.disk.stored;
    if ok { ok := QuarantineAll(fs, WireGuard, m); }
    if ok { ExactlyReferenced(fs.policy, swept, fs.disk, m); }
  }

  lemma ExactlyReferenced(policy: Policy, swept: Objects, d: Disk, m: Manifest)
    requires Consistent(policy, d) && d.manifest.may == {Json(m)}
    requires OthersSame(swept, d.stored, WireGuard)
    requires SweptBut(swept, OpenVPN, m, {}) && SweptBut(d.stored, WireGuard, m, {})
    ensures forall s :: At(d.stored, s).now.Present? <==> Referenced(m.profiles, s)
  {
    forall s ensures At(d.stored, s).now.Present? <==> Referenced(m.profiles, s) {
      if At(d.stored, s).now.Present? {
        if s.protocol == WireGuard {
          assert s in PresentIn(d.stored, WireGuard);
        } else {
          assert At(d.stored, s).now == At(swept, s).now;
          assert s in PresentIn(swept, OpenVPN);
        }
      } else if Referenced(m.profiles, s) {
        var k :| 0 <= k < |m.profiles| && SlotOf(m.profiles[k]) == s;
        assert Sound(policy, d.stored, Json(m));
        ExactNow(policy, d.stored, m.profiles[k]);
      }
    }
  }

  /** What opening finds in the manifest file. */
  function Found(image: Image): Manifest {
    if image.Json? then image.manifest else INITIAL
  }

  lemma InitialValid()
    ensures ValidManifest(INITIAL)
  {
  }

  /** The first half of OpenStore: the manifest found is made durable, or the initial one created. */
  method LoadManifest(fs: FileSystem) returns (ok: bool, m: Manifest)
    requires fs.Valid()
    modifies fs`disk, fs`log, fs`faults
    ensures fs.Valid() && fs.disk.stored == old(fs.disk).stored
    ensures m == Found(old(fs.disk).manifest.now) && ValidManifest(m)
    ensures ok ==> fs.disk.manifest == Cell(Json(m), {Json(m)})
    ensures Extends(old(fs.log), fs.log, old(fs.disk).manifest.may + {Json(m)})
    ensures old(fs.faults) <= fs.faults && (fs.faults == old(fs.faults) ==> ok)
  {
    InitialValid();
    m := Found(fs.disk.manifest.now);
    assert Sound(fs.policy, fs.disk.stored, fs.disk.manifest.now);
    ok := fs.Try();
    if !ok { return; }
    if fs.disk.manifest.now.Missing? {
      var published;
      published, ok := fs.WriteJsonAtomic(m);
      return;
    }
    var valid := ValidateManifest(m);
    if !valid { return false, m; }
    ok := fs.Try();  // the manifest file's own sync
    if !ok { return; }
    ok := fs.Call(SyncRoot(fs.disk));
  }

  /** OpenStore: it fails only for a fault, and then has deleted nothing that a surviving manifest
      names; otherwise the library is exactly the manifest found. */
  method Open(fs: FileSystem) returns (store: Store?)
    requires fs.Valid()
    modifies fs`disk, fs`log, fs`faults
    ensures fs.Valid()
    ensures store != null ==>
      && fresh(store) && store.fs == fs && store.Valid() && !store.unknown
      && store.manifest == Found(old(fs.disk).manifest.now) && Clean(fs.disk, store.manifest)
    ensures Extends(old(fs.log), fs.log, old(fs.disk).manifest.may + {Json(Found(old(fs.disk).manifest.now))})
    ensures old(fs.faults) <= fs.faults && (fs.faults == old(fs.faults) ==> store != null)
  {
    store := null;
    var ok, m := LoadManifest(fs);
    if !ok { return; }
    ok := CleanupRemnants(fs, m);
    if !ok { return; }
    store := new Store(fs, m);
  }

  // ----- crashes and whole runs ---------------------------------------------------------------

  /** A crash at any step of a stretch of the log leaves a consistent library, with one of the
      manifests that the stretch allows. */
  lemma CrashAnywhere(policy: Policy, log: seq<Disk>, from: nat, images: set<Image>, k: nat, after: Disk)
    requires Within(log, from, images) && from <= k < |log| && ConsistentAt(policy, log, k)
    requires CrashImage(log[k], after)
    ensures Consistent(policy, after) && after.manifest.now in images
  {
    CrashKeepsConsistent(policy, log[k], after);
  }

  /** After any crash that left the library consistent, opening without a fault succeeds: the
      library is exactly the manifest found, each object byte-exact, and nothing else remains. */
  method Recover(policy: Policy, after: Disk) returns (fs: FileSystem, store: Store?)
    requires Consistent(policy, after)
    ensures fs.Valid() && (fs.faults == 0 ==> store != null)
    ensures store != null ==>
      && store.fs == fs && store.Valid() && store.manifest == Found(after.manifest.now)
      && Clean(fs.disk, store.manifest) && AllExact(policy, fs.disk.stored, store.manifest.profiles)
  {
    fs := new FileSystem(policy, after);
    store := Open(fs);
    if store != null { assert Sound(policy, fs.disk.stored, Json(store.manifest)); }
  }

  /** A crash at any state from one point of the log on leaves a consistent library that is exactly
      the one or exactly the other. */
  ghost predicate Atomic(policy: Policy, log: seq<Disk>, from: nat, before: Manifest, target: Manifest) {
    forall k, after :: from <= k < |log| && CrashImage(log[k], after) ==>
      Consistent(policy, after) && (Found(after.manifest.now) == before || Found(after.manifest.now) == target)
  }

  lemma AtomicWithin(policy: Policy, log: seq<Disk>, from: nat, before: Manifest, target: Manifest)
    requires Within(log, from, {Json(before), Json(target)}) && forall k :: ConsistentAt(policy, log, k)
    ensures Atomic(policy, log, from, before, target)
  {
    forall k, after | from <= k < |log| && CrashImage(log[k], after)
      ensures Consistent(policy, after) && (Found(after.manifest.now) == before || Found(after.manifest.now) == target)
    {
      assert ConsistentAt(policy, log, k);
      CrashAnywhere(policy, log, from, {Json(before), Json(target)}, k, after);
    }
  }

  /** Publish is atomic: a crash at any of its steps leaves exactly the old library or exactly the
      new one, the whole batch or none of it. */
  method PublishCrashing(store: Store, expected: nat, objects: seq<NewObject>) returns (errs: Failure)
    requires store.Valid() && !store.unknown
    modifies store, store.fs`disk, store.fs`log, store.fs`faults
    ensures store.Valid()
    ensures var target := Published(old(store.manifest), objects);
      Atomic(store.fs.policy, store.fs.log, old(|store.fs.log|), old(store.manifest), target)
  {
    ghost var before := store.manifest;
    var pending;
    errs, pending := store.Publish(expected, objects);
    AtomicWithin(store.fs.policy, store.fs.log, old(|store.fs.log|), before, Published(before, objects));
  }

  /** Remove is atomic: a crash at any of its steps leaves the library with or without the profile. */
  method RemoveCrashing(store: Store, id: Id) returns (errs: Failure)
    requires store.Valid() && !store.unknown
    modifies store, store.fs`disk, store.fs`log, store.fs`faults
    ensures store.Valid()
    ensures var target := Removed(old(store.manifest), id);
      Atomic(store.fs.policy, store.fs.log, old(|store.fs.log|), old(store.manifest), target)
  {
    ghost var before := store.manifest;
    var pending;
    errs, pending := store.Remove(id);
    AtomicWithin(store.fs.policy, store.fs.log, old(|store.fs.log|), before, Removed(before, id));
  }

  /** One thing that happens to a state directory. */
  datatype Call =
    | Opening
    | Publishing(expected: nat, objects: seq<NewObject>)
    | Removing(id: Id)
    | Connecting(desired: Id, connectedAt: int, addRecent: bool)
    | Preferring(favorites: seq<Id>, recents: seq<Id>, startup: Startup)
    | Editing(edited: Id, patch: Patch)
    | Repairing
    | Executing(executed: Id)
    | Cleaning(copy: nat)
    | Crashing(back: nat, effect: Disk -> Disk)  // so many steps before the end of the last call

  /** The effects of crashes are what crashes may do; every one of them is such an effect. */
  ghost predicate Lawful(policy: Policy, call: Call) {
    call.Crashing? ==> forall d :: Consistent(policy, d) ==> CrashImage(d, call.effect(d))
  }

  method Serve(store: Store, call: Call)
    requires store.Valid()
    modifies store, store.fs`disk, store.fs`log, store.fs`faults
    ensures store.Valid() && old(store.fs.log) <= store.fs.log
  {
    var errs, pending;
    match call
    case Publishing(expected, objects) => errs, pending := store.Publish(expected, objects);
    case Removing(id) => errs, pending := store.Remove(id);
    case Connecting(desired, connectedAt, addRecent) => errs := store.SetConnection(desired, connectedAt, addRecent);
    case Preferring(favorites, recents, startup) => errs := store.SetPreferences(favorites, recents, startup);
    case Editing(edited, patch) => errs := store.UpdateMetadata(edited, patch);
    case Repairing => errs := store.RepairDurability();
    case Executing(executed) => { var n; errs, n := store.PrepareExecution(executed); }
    case Cleaning(copy) => errs := store.CleanupExecution(copy);
    case _ =>
  }

  /** Every run of openings, operations, faults and crashes, where a crash may cut the last call off
      at any of its steps: in every state of the disk, any manifest that could survive a crash refers
      only to durable and byte-exact objects, and while a store is open its manifest is the visible
      one. */
  method Run(policy: Policy, calls: seq<Call>) returns (fs: FileSystem, store: Store?)
    requires forall k :: 0 <= k < |calls| ==> Lawful(policy, calls[k])
    ensures fs.policy == policy && fs.log != [] && fs.log[0] == EMPTY
    ensures forall k :: 0 <= k < |fs.log| ==> Consistent(policy, fs.log[k])
    ensures fs.Valid() && (store != null ==> store.fs == fs && store.Valid())
  {
    store := null;
    fs := new FileSystem(policy, EMPTY);
    var start := 0;  // the state in which the last call began
    for k := 0 to |calls|
      invariant fs.Valid() && fs.policy == policy && (store != null ==> store.fs == fs && store.Valid())
      invariant 0 <= start < |fs.log| && fs.log[0] == EMPTY && fresh(fs) && (store != null ==> fresh(store))
    {
      var last := |fs.log| - 1;
      if calls[k].Crashing? {
        store := null;
        CrashBack(fs, calls[k], if calls[k].back <= last - start then last - calls[k].back else start);
        last := |fs.log| - 1;
      } else if store == null {
        store := Open(fs);
      } else {
        Serve(store, calls[k]);
      }
      start := last;
    }
    forall k | 0 <= k < |fs.log| ensures Consistent(policy, fs.log[k]) { assert ConsistentAt(policy, fs.log, k); }
  }

  method CrashBack(fs: FileSystem, call: Call, k: nat)
    requires fs.Valid() && call.Crashing? && Lawful(fs.policy, call) && k < |fs.log|
    modifies fs`disk, fs`log
    ensures fs.Valid() && fs.log == old(fs.log)[..k + 1] + [fs.disk] && CrashImage(old(fs.log)[k], fs.disk)
  {
    assert ConsistentAt(fs.policy, fs.log, k);
    fs.Crash(k, call.effect(fs.log[k]));
  }
}
