/** The filesystem under the profile store (internal/securefs/securefs.go): what is visible now and
    what may be found after a crash. Every change of a name is durable only after the sync of the
    directory that holds it; until then a crash may leave any value the name has had since its last
    sync. Renames are atomic and the changes of one object persist in the order they were made.
    Unsynced contents survive a crash as anything. */
module Disk {
  import opened Contracts
  import opened Text
  import opened Library

  /** ValidateImportedProfile: None rejects; Some carries the WireGuard key digest. */
  type Policy = (Protocol, string) -> Option<Digest>

  /** The manifest file: absent, a complete document, or one that was renamed into place without
      its contents having been synced. */
  datatype Image = Missing | Json(manifest: Manifest) | Torn

  /** A name of a protocol directory: absent, an object directory with these files, or one whose
      contents were never synced. */
  datatype Entry = Absent | Present(files: map<string, string>) | Damaged

  datatype Slot = Slot(protocol: Protocol, id: Id)

  /** A name with its visible value and every value that a crash may leave. */
  datatype Cell<T> = Cell(now: T, may: set<T>)

  datatype Staged = Staged(files: map<string, string>, filesSynced: bool, entriesSynced: bool)

  datatype Temp = Temp(image: Image, synced: bool)

  datatype Trash = Quarantined(protocol: Protocol, id: Id) | RemovedAt(revision: nat, id: Id)

  type Objects = map<Slot, Cell<Entry>>

  /** The state root and the library directories. The three special directories hold only what
      the next opening sweeps: a crash may leave anything of them. */
  datatype Disk = Disk(
    manifest: Cell<Image>,
    temps: map<nat, Temp>,
    stored: Objects,
    transactions: map<nat, map<Id, Staged>>,
    garbage: set<Trash>,
    executions: map<nat, map<string, string>>)

  const EMPTY: Disk := Disk(Cell(Missing, {Missing}), map[], map[], map[], {}, map[])

  function At(stored: Objects, s: Slot): Cell<Entry> {
    if s in stored then stored[s] else Cell(Absent, {Absent})
  }

  // ----- consistency ------------------------------------------------------------------------

  function FileName(p: Profile): string {
    if p.protocol == WireGuard then p.identifier + ".conf" else "profile.ovpn"
  }

  predicate WellNamed(protocol: Protocol, name: string) {
    if protocol == WireGuard then HasSuffix(name, ".conf") && IdentifierPattern(TrimSuffix(name, ".conf"))
    else name == "profile.ovpn"
  }

  function SlotOf(p: Profile): Slot {
    Slot(p.protocol, p.id)
  }

  function Files(p: Profile): map<string, string>
    requires p.content.Sha256?
  {
    map[FileName(p) := p.content.content]
  }

  /** The object of a profile is durable and byte-exact: no crash can leave anything else in its
      place, and the import policy still accepts it under the recorded identity. */
  ghost predicate Exact(policy: Policy, stored: Objects, p: Profile) {
    && p.content.Sha256?
    && At(stored, SlotOf(p)).may == {Present(Files(p))}
    && policy(p.protocol, p.content.content) == Some(p.key)
  }

  /** What is visible in a profile's place is its object, and the import policy accepts it. */
  predicate Matches(policy: Policy, stored: Objects, p: Profile) {
    && p.content.Sha256?
    && At(stored, SlotOf(p)).now == Present(Files(p))
    && policy(p.protocol, p.content.content) == Some(p.key)
  }

  ghost predicate AllExact(policy: Policy, stored: Objects, profiles: seq<Profile>) {
    forall k :: 0 <= k < |profiles| ==> Exact(policy, stored, profiles[k])
  }

  predicate ProperFile(policy: Policy, protocol: Protocol, name: string, data: string) {
    WellNamed(protocol, name) && 0 < ByteLength(data) <= MAX_PROFILE_BYTES && policy(protocol, data).Some?
  }

  /** An entry that recovery can recognise and quarantine. */
  ghost predicate Proper(policy: Policy, s: Slot, e: Entry) {
    && !e.Damaged?
    && (e.Present? ==>
      && IdPattern(s.id)
      && |e.files| == 1
      && forall name :: name in e.files ==> ProperFile(policy, s.protocol, name, e.files[name]))
  }

  ghost predicate Sound(policy: Policy, stored: Objects, image: Image) {
    && !image.Torn?
    && (image.Json? ==> ValidManifest(image.manifest) && AllExact(policy, stored, image.manifest.profiles))
  }

  ghost predicate SoundObjects(policy: Policy, stored: Objects) {
    forall s :: s in stored ==>
      stored[s].now in stored[s].may && forall e :: e in stored[s].may ==> Proper(policy, s, e)
  }

  ghost predicate SoundImages(policy: Policy, stored: Objects, manifest: Cell<Image>) {
    manifest.now in manifest.may && forall i :: i in manifest.may ==> Sound(policy, stored, i)
  }

  /** Any manifest that could survive a crash refers only to objects that are durable and
      byte-exact, and every object that could survive can be recognised. */
  ghost predicate Consistent(policy: Policy, d: Disk) {
    SoundObjects(policy, d.stored) && SoundImages(policy, d.stored, d.manifest)
  }

  ghost predicate ConsistentAt(policy: Policy, log: seq<Disk>, k: int) {
    0 <= k < |log| ==> Consistent(policy, log[k])
  }

  // ----- changes of the protocol directories --------------------------------------------------

  function Put(stored: Objects, s: Slot, e: Entry, also: set<Entry>): Objects {
    stored[s := Cell(e, At(stored, s).may + {e} + also)]
  }

  function Settle(stored: Objects, protocol: Protocol): Objects {
    map s | s in stored :: if s.protocol == protocol then Cell(stored[s].now, {stored[s].now}) else stored[s]
  }

  lemma ExactNow(policy: Policy, stored: Objects, p: Profile)
    requires SoundObjects(policy, stored) && Exact(policy, stored, p)
    ensures Matches(policy, stored, p)
  {
  }

  /** Moving an object to a free name, or a name away, leaves the objects at other names exact;
      and the name of an exact object is not free. */
  lemma PutKeeps(policy: Policy, stored: Objects, s: Slot, e: Entry)
    requires SoundObjects(policy, stored) && Proper(policy, s, e)
    ensures SoundObjects(policy, Put(stored, s, e, {}))
    ensures forall p :: Exact(policy, stored, p) && SlotOf(p) != s ==> Exact(policy, Put(stored, s, e, {}), p)
    ensures At(stored, s).now.Absent? ==> forall p :: Exact(policy, stored, p) ==> SlotOf(p) != s
  {
    forall p | Exact(policy, stored, p) && At(stored, s).now.Absent? ensures SlotOf(p) != s {
      ExactNow(policy, stored, p);
    }
  }

  lemma SettleKeeps(policy: Policy, stored: Objects, protocol: Protocol)
    requires SoundObjects(policy, stored)
    ensures SoundObjects(policy, Settle(stored, protocol))
    ensures forall p :: Exact(policy, stored, p) ==> Exact(policy, Settle(stored, protocol), p)
    ensures forall s :: At(Settle(stored, protocol), s).now == At(stored, s).now
    ensures forall s: Slot :: s.protocol == protocol ==> At(Settle(stored, protocol), s).may == {At(stored, s).now}
  {
    forall p | Exact(policy, stored, p) ensures Exact(policy, Settle(stored, protocol), p) {
      ExactNow(policy, stored, p);
    }
  }

  lemma SoundKept(policy: Policy, before: Objects, after: Objects, manifest: Cell<Image>)
    requires SoundImages(policy, before, manifest)
    requires forall i, k :: i in manifest.may && i.Json? && 0 <= k < |i.manifest.profiles| ==>
      Exact(policy, after, i.manifest.profiles[k])
    ensures SoundImages(policy, after, manifest)
  {
  }

  // ----- crashes ----------------------------------------------------------------------------

  ghost predicate Survives<T(!new)>(before: Cell<T>, after: Cell<T>) {
    after.now in after.may && after.may <= before.may
  }

  /** What a crash may leave: every name of the state root and the protocol directories in a state
      that may survive, and the special directories in any state. Both the death of the process
      and a loss of power are such crashes. */
  ghost predicate CrashImage(before: Disk, after: Disk) {
    && Survives(before.manifest, after.manifest)
    && forall s :: Survives(At(before.stored, s), At(after.stored, s))
  }

  /** A crash keeps the library consistent. */
  lemma CrashKeepsConsistent(policy: Policy, before: Disk, after: Disk)
    requires Consistent(policy, before) && CrashImage(before, after)
    ensures Consistent(policy, after)
    ensures forall p :: Exact(policy, before.stored, p) ==> Exact(policy, after.stored, p)
  {
    forall p | Exact(policy, before.stored, p) ensures Exact(policy, after.stored, p) {
      var a, b := At(before.stored, SlotOf(p)), At(after.stored, SlotOf(p));
      assert Survives(a, b);
      assert b.may == {b.now};
    }
    forall s | s in after.stored
      ensures after.stored[s].now in after.stored[s].may && forall e :: e in after.stored[s].may ==>
        Proper(policy, s, e)
    {
      assert Survives(At(before.stored, s), At(after.stored, s));
    }
    SoundKept(policy, before.stored, after.stored, before.manifest);
  }

  /** From one point of the log on, only these manifests could survive a crash. */
  ghost predicate Within(log: seq<Disk>, from: nat, images: set<Image>) {
    forall k :: from <= k < |log| ==> log[k].manifest.may <= images
  }

  ghost predicate Extends(before: seq<Disk>, after: seq<Disk>, images: set<Image>) {
    before <= after && Within(after, |before|, images)
  }

  lemma Further(a: seq<Disk>, b: seq<Disk>, c: seq<Disk>, images: set<Image>, more: set<Image>)
    requires Extends(a, b, images) && Extends(b, c, more) && more <= images
    ensures Extends(a, c, images)
  {
    forall k | |a| <= k < |c| ensures c[k].manifest.may <= images {
      if k < |b| { assert c[k] == b[k]; }
    }
  }

  // ----- system calls, as changes of the disk -------------------------------------------------

  /** open(2) with O_EXCL. */
  function CreateTemp(d: Disk, n: nat): Disk
    requires n !in d.temps
  {
    d.(temps := d.temps[n := Temp(Torn, false)])
  }

  function WriteTemp(d: Disk, n: nat, m: Manifest): Disk
    requires n in d.temps
  {
    d.(temps := d.temps[n := Temp(Json(m), false)])
  }

  function SyncTemp(d: Disk, n: nat): Disk
    requires n in d.temps
  {
    d.(temps := d.temps[n := d.temps[n].(synced := true)])
  }

  function UnlinkTemp(d: Disk, n: nat): Disk {
    d.(temps := d.temps - {n})
  }

  /** rename(2) of a temporary file over the manifest. */
  function RenameTemp(d: Disk, n: nat): Disk
    requires n in d.temps
  {
    var t := d.temps[n];
    d.(temps := d.temps - {n},
       manifest := Cell(t.image, d.manifest.may + {t.image} + if t.synced then {} else {Torn}))
  }

  function SyncRoot(d: Disk): Disk {
    d.(manifest := Cell(d.manifest.now, {d.manifest.now}))
  }

  function MakeTransaction(d: Disk, txn: nat): Disk {
    d.(transactions := d.transactions[txn := map[]])
  }

  function SetStaged(d: Disk, txn: nat, id: Id, staged: Staged): Disk
    requires txn in d.transactions
  {
    d.(transactions := d.transactions[txn := d.transactions[txn][id := staged]])
  }

  function MakeStaged(d: Disk, txn: nat, id: Id): Disk
    requires txn in d.transactions && id !in d.transactions[txn]
  {
    SetStaged(d, txn, id, Staged(map[], false, false))
  }

  function WriteStaged(d: Disk, txn: nat, id: Id, files: map<string, string>): Disk
    requires txn in d.transactions && id in d.transactions[txn]
  {
    SetStaged(d, txn, id, Staged(files, false, false))
  }

  function SyncStagedFiles(d: Disk, txn: nat, id: Id): Disk
    requires txn in d.transactions && id in d.transactions[txn]
  {
    SetStaged(d, txn, id, d.transactions[txn][id].(filesSynced := true))
  }

  function SyncStagedEntries(d: Disk, txn: nat, id: Id): Disk
    requires txn in d.transactions && id in d.transactions[txn]
  {
    SetStaged(d, txn, id, d.transactions[txn][id].(entriesSynced := true))
  }

  /** Between the two states, only the staging of one object changed. */
  predicate OnlyStaged(before: Disk, after: Disk, txn: nat, id: Id)
    requires txn in before.transactions
  {
    || after == before
    || (txn in after.transactions && id in after.transactions[txn]
        && after == SetStaged(before, txn, id, after.transactions[txn][id]))
  }

  lemma StagedOthers(before: Disk, after: Disk, txn: nat, id: Id)
    requires txn in before.transactions && OnlyStaged(before, after, txn, id)
    ensures after == before.(transactions := after.transactions) && txn in after.transactions
    ensures forall other :: other in after.transactions[txn] ==> other in before.transactions[txn] || other == id
    ensures forall other :: other in before.transactions[txn] && other != id ==>
      other in after.transactions[txn] && after.transactions[txn][other] == before.transactions[txn][other]
  {
  }

  lemma StagedAgain(d: Disk, txn: nat, id: Id, a: Staged, b: Staged)
    requires txn in d.transactions
    ensures SetStaged(SetStaged(d, txn, id, a), txn, id, b) == SetStaged(d, txn, id, b)
  {
    assert d.transactions[txn][id := a][id := b] == d.transactions[txn][id := b];
    var inner := d.transactions[txn][id := b];
    assert d.transactions[txn := d.transactions[txn][id := a]][txn := inner] == d.transactions[txn := inner];
  }

  lemma OnlyStagedFurther(a: Disk, b: Disk, c: Disk, txn: nat, id: Id)
    requires txn in a.transactions && OnlyStaged(a, b, txn, id) && txn in b.transactions && OnlyStaged(b, c, txn, id)
    ensures OnlyStaged(a, c, txn, id)
  {
    if b != a && c != b { StagedAgain(a, txn, id, b.transactions[txn][id], c.transactions[txn][id]); }
  }

  /** RENAME_NOREPLACE of a staged object into its protocol directory. */
  function Install(d: Disk, txn: nat, id: Id, s: Slot): Disk
    requires txn in d.transactions && id in d.transactions[txn]
  {
    var staged := d.transactions[txn][id];
    d.(transactions := d.transactions[txn := d.transactions[txn] - {id}],
       stored := Put(d.stored, s, Present(staged.files),
                     if staged.filesSynced && staged.entriesSynced then {} else {Damaged}))
  }

  function SyncProtocol(d: Disk, protocol: Protocol): Disk {
    d.(stored := Settle(d.stored, protocol))
  }

  function Discard(d: Disk, s: Slot, trash: Trash): Disk {
    d.(stored := Put(d.stored, s, Absent, {}), garbage := d.garbage + {trash})
  }

  // ----- the filesystem ---------------------------------------------------------------------

  class FileSystem {
    const policy: Policy
    var disk: Disk
    var log: seq<Disk>  // every state so far, for a crash to choose from
    ghost var faults: nat

    constructor (policy: Policy, disk: Disk)
      requires Consistent(policy, disk)
      ensures Valid() && this.policy == policy && this.disk == disk && log == [disk]
    {
      this.policy, this.disk, this.log, this.faults := policy, disk, [disk], 0;
    }

    /** Every state the disk has ever been in was consistent. */
    ghost predicate Valid()
      reads this
    {
      Consistent(policy, disk) && forall k :: ConsistentAt(policy, log, k)
    }

    /** A call into the system, or a checkpoint of the caller, may fail. */
    method Try() returns (ok: bool)
      modifies this`faults
      ensures faults == if ok then old(faults) else old(faults) + 1
    {
      ok := *;
      if !ok { faults := faults + 1; }
    }

    method Become(next: Disk)
      requires Valid() && Consistent(policy, next)
      modifies this`disk, this`log
      ensures Valid() && disk == next && log == old(log) + [next]
    {
      forall k ensures ConsistentAt(policy, log + [next], k) {
        assert ConsistentAt(policy, log, k);
      }
      disk := next;
      log := log + [next];
    }

    /** A system call: it fails without effect. */
    method Call(next: Disk) returns (ok: bool)
      requires Valid() && Consistent(policy, next)
      modifies this`disk, this`log, this`faults
      ensures Valid() && disk == (if ok then next else old(disk)) && log == old(log) + [disk]
      ensures faults == if ok then old(faults) else old(faults) + 1
    {
      ok := Try();
      Become(if ok then next else disk);
    }

    /** A call between two checkpoints: it may fail before or after taking effect. */
    method Attempt(next: Disk) returns (ok: bool)
      requires Valid() && Consistent(policy, next)
      modifies this`disk, this`log, this`faults
      ensures Valid() && (disk == next || (!ok && disk == old(disk))) && log == old(log) + [disk]
      ensures faults == if ok then old(faults) else old(faults) + 1
    {
      ok := Try();
      var effect: bool := *;
      Become(if ok || effect then next else disk);
    }

    /** WriteJSONAtomic: a synced temporary file is renamed over the manifest, then the root is
        synced. Before the rename nothing is published; after the root's sync it is durable. */
    method WriteJsonAtomic(m: Manifest) returns (published: bool, durable: bool)
      requires Valid() && Sound(policy, disk.stored, Json(m))
      modifies this`disk, this`log, this`faults
      ensures Valid() && disk == old(disk).(manifest := disk.manifest, temps := disk.temps)
      ensures !published ==> !durable && disk.manifest == old(disk.manifest)
      ensures published ==> disk.manifest.now == Json(m) && disk.manifest.may <= old(disk.manifest.may) + {Json(m)}
      ensures durable ==> published && disk.manifest.may == {Json(m)}
      ensures Extends(old(log), log, old(disk.manifest.may) + {Json(m)})
      ensures old(faults) <= faults && (durable <==> faults == old(faults))
      ensures faults <= old(faults) + 1 ==> disk.temps == old(disk.temps)
    {
      var n, ok := PrepareTemp(m);
      if !ok { return false, false; }
      ok := Call(RenameTemp(disk, n));
      if !ok {
        ok := Call(UnlinkTemp(disk, n));
        return false, false;
      }
      published := true;
      ok := Try();
      if !ok { return true, false; }
      durable := Attempt(SyncRoot(disk));
    }

    /** The temporary file of WriteJSONAtomic, complete and synced, or removed again if possible. */
    method PrepareTemp(m: Manifest) returns (n: nat, ok: bool)
      requires Valid()
      modifies this`disk, this`log, this`faults
      ensures Valid() && disk == old(disk).(temps := disk.temps)
      ensures ok ==> n in disk.temps && disk.temps[n] == Temp(Json(m), true)
      ensures Extends(old(log), log, old(disk.manifest.may))
      ensures old(faults) <= faults && (ok <==> faults == old(faults))
      ensures if ok then disk.temps - {n} == old(disk.temps)
        else faults <= old(faults) + 1 ==> disk.temps == old(disk.temps)
    {
      var name: nat := *;
      n := name;
      ok := Try();
      if !ok { return; }
      if n in disk.temps { faults := faults + 1; return n, false; }
      ok := Scratch(CreateTemp(disk, n));
      if ok { ok := Scratch(WriteTemp(disk, n, m)); }
      if ok { ok := Scratch(SyncTemp(disk, n)); }
      if !ok { var removed := Scratch(UnlinkTemp(disk, n)); }
    }

    /** A call, with its checkpoints, that does not touch the manifest file. */
    method Step(next: Disk) returns (ok: bool)
      requires Valid() && Consistent(policy, next) && next.manifest == disk.manifest
      modifies this`disk, this`log, this`faults
      ensures Valid() && (disk == next || (!ok && disk == old(disk)))
      ensures Extends(old(log), log, disk.manifest.may)
      ensures faults == if ok then old(faults) else old(faults) + 1
    {
      ok := Attempt(next);
    }

    /** A call, with its checkpoints, that touches neither the manifest nor the objects. */
    method Scratch(next: Disk) returns (ok: bool)
      requires Valid() && next.manifest == disk.manifest && next.stored == disk.stored
      modifies this`disk, this`log, this`faults
      ensures Valid() && (disk == next || (!ok && disk == old(disk)))
      ensures Extends(old(log), log, disk.manifest.may)
      ensures faults == if ok then old(faults) else old(faults) + 1
    {
      ok := Attempt(next);
    }

    /** WriteExclusive of an object's one file: created, written, synced. */
    method WriteExclusive(txn: nat, id: Id, files: map<string, string>) returns (ok: bool)
      requires Valid() && txn in disk.transactions && id in disk.transactions[txn]
      modifies this`disk, this`log, this`faults
      ensures Valid() && OnlyStaged(old(disk), disk, txn, id)
      ensures ok ==> disk == SetStaged(old(disk), txn, id, Staged(files, true, false))
      ensures Extends(old(log), log, disk.manifest.may)
      ensures old(faults) <= faults && (ok <==> faults == old(faults))
    {
      ok := Scratch(WriteStaged(disk, txn, id, files));
      if !ok { return; }
      StagedAgain(old(disk), txn, id, Staged(files, false, false), Staged(files, true, false));
      ok := Scratch(SyncStagedFiles(disk, txn, id));
    }

    /** RemoveTreeAt of a transaction: a failure leaves any part of it. */
    method RemoveTransaction(txn: nat) returns (ok: bool)
      requires Valid() && txn in disk.transactions
      modifies this`disk, this`log, this`faults
      ensures Valid() && disk == old(disk).(transactions := disk.transactions)
      ensures disk.transactions.Keys <= old(disk.transactions).Keys
      ensures ok ==> disk.transactions == old(disk.transactions) - {txn}
      ensures Extends(old(log), log, disk.manifest.may)
      ensures faults == if ok then old(faults) else old(faults) + 1
    {
      var rest: map<Id, Staged> := *;
      ok := Try();
      Become(disk.(transactions := if ok then disk.transactions - {txn} else disk.transactions[txn := rest]));
    }

    /** RemoveTreeAt of an execution copy. */
    method RemoveExecution(n: nat) returns (ok: bool)
      requires Valid() && n in disk.executions
      modifies this`disk, this`log, this`faults
      ensures Valid() && disk == old(disk).(executions := disk.executions)
      ensures disk.executions.Keys <= old(disk.executions).Keys
      ensures disk.executions - {n} == old(disk.executions) - {n}
      ensures (ok ==> disk.executions == old(disk.executions) - {n})
      ensures Extends(old(log), log, disk.manifest.may)
      ensures faults == if ok then old(faults) else old(faults) + 1
    {
      var rest: map<string, string> := *;
      ok := Try();
      Become(disk.(executions := if ok then disk.executions - {n} else disk.executions[n := rest]));
    }

    /** A crash at the k-th state: the steps after it were never taken. */
    method Crash(k: nat, after: Disk)
      requires Valid() && k < |log| && CrashImage(log[k], after)
      modifies this`disk, this`log
      ensures Valid() && disk == after && log == old(log)[..k + 1] + [after]
      ensures forall p :: Exact(policy, old(log)[k].stored, p) ==> Exact(policy, disk.stored, p)
    {
      assert ConsistentAt(policy, log, k);
      CrashKeepsConsistent(policy, log[k], after);
      var happened := log[..k + 1];
      forall j ensures ConsistentAt(policy, happened, j) {
        assert ConsistentAt(policy, log, j);
      }
      log := happened;
      Become(after);
    }
  }
}
