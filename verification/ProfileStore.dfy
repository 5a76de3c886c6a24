/** internal/profiles/store.go: the mutable store of profiles over the filesystem of `Disk`.
    Every call into the system may fail at any point; the filesystem demands that every single
    change leave the disk consistent, so each operation proves it at each of its steps. */
module ProfileStore {
  import opened Contracts
  import opened Text
  import opened Library
  import opened Disk

  datatype NewObject = NewObject(profile: Profile, bytes: string)

  predicate AdmissibleObject(policy: Policy, o: NewObject) {
    && 0 < ByteLength(o.bytes) <= MAX_PROFILE_BYTES
    && ValidProfile(o.profile)
    && o.profile.content == Sha256(o.bytes)
    && policy(o.profile.protocol, o.bytes) == Some(o.profile.key)
  }

  function ProfilesOf(objects: seq<NewObject>): (profiles: seq<Profile>)
    ensures |profiles| == |objects| && forall k :: 0 <= k < |objects| ==> profiles[k] == objects[k].profile
  {
    seq(|objects|, k requires 0 <= k < |objects| => objects[k].profile)
  }

  /** What Publish accepts. */
  predicate Publishable(policy: Policy, m: Manifest, objects: seq<NewObject>) {
    && |m.profiles| + |objects| <= MAX_PROFILES
    && (forall k :: 0 <= k < |objects| ==> AdmissibleObject(policy, objects[k]))
    && ValidManifest(WithProfiles(m, ProfilesOf(objects)))
  }

  /** A duplicate makes the whole list invalid. */
  lemma ClashRejects(all: seq<Profile>, k: nat)
    requires k < |all| && (all[k].id in Ids(all[..k]) || all[k].content in Contents(all[..k]))
    ensures !ValidProfiles(all)
  {
    Clashes(all[..k], all[k]);
    ValidSnoc(all[..k], all[k]);
    assert all[..k + 1] == all[..k] + [all[k]];
    ValidPrefix(all, k + 1);
  }

  /** The checks of one object in Publish. */
  method CheckObject(policy: Policy, o: NewObject) returns (ok: bool)
    ensures ok <==> AdmissibleObject(policy, o)
  {
    if !(0 < ByteLength(o.bytes) <= MAX_PROFILE_BYTES) || !ValidProfile(o.profile) { return false; }
    if Sha256(o.bytes) != o.profile.content { return false; }
    var accepted := policy(o.profile.protocol, o.bytes);
    ok := accepted.Some? && accepted.value == o.profile.key;
  }

  /** The admission loop of Publish, with its two maps of what was seen. */
  method Gather(policy: Policy, base: seq<Profile>, objects: seq<NewObject>)
    returns (errs: Failure, profiles: seq<Profile>)
    ensures GatherMeets(policy, base, objects, errs, profiles)
  {
    errs := {};
    var ids, contents := Ids(base), Contents(base);
    profiles := base;
    for k := 0 to |objects|
      invariant Gathering(policy, base, objects, k, profiles, ids, contents)
    {
      var ok := CheckObject(policy, objects[k]);
      if !ok { return {Failed}, profiles; }
      var p := objects[k].profile;
      GatherNext(policy, base, objects, k, profiles, ids, contents);
      if p.id in ids || p.content in contents { return {DuplicateObject}, profiles; }
      ids, contents, profiles := ids + {p.id}, contents + {p.content}, profiles + [p];
    }
    assert profiles == base + ProfilesOf(objects);
  }

  ghost predicate AllAdmissible(policy: Policy, objects: seq<NewObject>, k: nat) {
    k <= |objects| && forall j :: 0 <= j < k ==> AdmissibleObject(policy, objects[j])
  }

  /** The base with all objects, or why not: the first object that is not admissible, or that clashes
      with what stands before it. */
  ghost predicate GatherMeets(policy: Policy, base: seq<Profile>, objects: seq<NewObject>, errs: Failure,
                              profiles: seq<Profile>) {
    var all := base + ProfilesOf(objects);
    || (errs == {} && profiles == all && AllAdmissible(policy, objects, |objects|)
        && NoClash(all, |base|, |all|))
    || (errs == {Failed} && exists k :: 0 <= k < |objects| && !AdmissibleObject(policy, objects[k]))
    || (errs == {DuplicateObject} && SomeClash(base, ProfilesOf(objects)))
  }

  ghost predicate Gathering(policy: Policy, base: seq<Profile>, objects: seq<NewObject>, k: nat,
                            profiles: seq<Profile>, ids: set<Id>, contents: set<Digest>) {
    && AllAdmissible(policy, objects, k)
    && |profiles| == |base| + k && profiles <= base + ProfilesOf(objects) && Seen(profiles, ids, contents)
    && NoClash(base + ProfilesOf(objects), |base|, |profiles|)
  }

  /** None of the profiles from the one position on clashes, up to the other. */
  ghost predicate NoClash(all: seq<Profile>, from: nat, to: nat) {
    forall n: nat :: from <= n < to ==> !Clash(all, n)
  }

  lemma GatherNext(policy: Policy, base: seq<Profile>, objects: seq<NewObject>, k: nat, profiles: seq<Profile>,
                   ids: set<Id>, contents: set<Digest>)
    requires k < |objects| && Gathering(policy, base, objects, k, profiles, ids, contents)
    requires AdmissibleObject(policy, objects[k])
    ensures var p := objects[k].profile;
      if p.id in ids || p.content in contents then SomeClash(base, ProfilesOf(objects))
      else Gathering(policy, base, objects, k + 1, profiles + [p], ids + {p.id}, contents + {p.content})
  {
    NextProfile(base, objects, profiles, k, ids, contents);
  }

  /** A profile of the list has the ID or the content of an earlier one. */
  predicate Clash(all: seq<Profile>, n: nat) {
    n < |all| && exists j :: 0 <= j < n && (all[j].id == all[n].id || all[j].content == all[n].content)
  }

  ghost predicate SomeClash(base: seq<Profile>, added: seq<Profile>) {
    exists n: nat :: |base| <= n && Clash(base + added, n)
  }

  lemma ClashSeen(all: seq<Profile>, profiles: seq<Profile>, ids: set<Id>, contents: set<Digest>)
    requires profiles <= all && |profiles| < |all| && Seen(profiles, ids, contents)
    ensures var p := all[|profiles|]; Clash(all, |profiles|) <==> p.id in ids || p.content in contents
  {
    assert forall j :: 0 <= j < |profiles| ==> profiles[j] == all[j];
  }

  ghost predicate Seen(profiles: seq<Profile>, ids: set<Id>, contents: set<Digest>) {
    ids == Ids(profiles) && contents == Contents(profiles)
  }

  lemma NextProfile(base: seq<Profile>, objects: seq<NewObject>, profiles: seq<Profile>, k: nat, ids: set<Id>,
                    contents: set<Digest>)
    requires k < |objects| && |profiles| == |base| + k
    requires profiles <= base + ProfilesOf(objects) && Seen(profiles, ids, contents)
    ensures var p := objects[k].profile;
      && profiles + [p] <= base + ProfilesOf(objects)
      && Seen(profiles + [p], ids + {p.id}, contents + {p.content})
      && (p.id in ids || p.content in contents <==> Clash(base + ProfilesOf(objects), |profiles|))
  {
    var all, p := base + ProfilesOf(objects), objects[k].profile;
    assert all[|profiles|] == p && profiles == all[..|profiles|];
    Collect(profiles, p);
    ClashSeen(all, profiles, ids, contents);
  }

  lemma ClashInvalid(base: seq<Profile>, added: seq<Profile>)
    requires SomeClash(base, added)
    ensures !ValidProfiles(base + added)
  {
    var n: nat :| |base| <= n && Clash(base + added, n);
    var all := base + added;
    assert all[..n][..n] == all[..n];
    ClashRejects(all, n);
  }

  /** Publish accepts exactly the publishable batches, and says which exceed the capacity. */
  method Admit(policy: Policy, m: Manifest, objects: seq<NewObject>) returns (errs: Failure, candidate: Manifest)
    ensures errs == {} <==> Publishable(policy, m, objects)
    ensures errs == {} ==> candidate == WithProfiles(m, ProfilesOf(objects))
    ensures Capacity in errs <==> |m.profiles| + |objects| > MAX_PROFILES
    ensures Capacity in errs ==> errs == {Capacity}
    ensures errs == {DuplicateObject} ==> SomeClash(m.profiles, ProfilesOf(objects))
    ensures |m.profiles| + |objects| <= MAX_PROFILES && SomeClash(m.profiles, ProfilesOf(objects)) ==>
      (forall k :: 0 <= k < |objects| ==> AdmissibleObject(policy, objects[k])) ==> errs == {DuplicateObject}
    ensures errs <= {Capacity, DuplicateObject, Failed}
  {
    candidate := m;
    if |m.profiles| + |objects| > MAX_PROFILES { return {Capacity}, m; }
    var profiles;
    errs, profiles := Gather(policy, m.profiles, objects);
    if SomeClash(m.profiles, ProfilesOf(objects)) { ClashInvalid(m.profiles, ProfilesOf(objects)); }
    if errs != {} { return; }
    candidate := m.(profiles := profiles, revision := m.revision + 1);
    var valid := ValidateManifest(candidate);
    errs := if valid then {} else {Failed};
  }

  /** The first profile with an ID. */
  method IndexOf(profiles: seq<Profile>, id: Id) returns (k: nat)
    ensures k <= |profiles| && (k == |profiles| <==> id !in Ids(profiles))
    ensures k < |profiles| ==> profiles[k].id == id
  {
    for j := 0 to |profiles|
      invariant forall i :: 0 <= i < j ==> profiles[i].id != id
    {
      if profiles[j].id == id { return j; }
    }
    k := |profiles|;
  }

  ghost function PositionOf(profiles: seq<Profile>, id: Id): (k: nat)
    requires id in Ids(profiles)
    ensures k < |profiles| && profiles[k].id == id
  {
    var k :| 0 <= k < |profiles| && profiles[k].id == id;
    k
  }

  /** The metadata of the profile with this ID patched, and nothing else changed but the revision. */
  ghost function Edit(m: Manifest, id: Id, patch: Patch): Manifest
    requires id in Ids(m.profiles)
  {
    var k := PositionOf(m.profiles, id);
    WithMetadata(m, k, Patched(m.profiles[k].metadata, patch))
  }

  lemma OnlyPosition(profiles: seq<Profile>, k: nat)
    requires ValidProfiles(profiles) && k < |profiles|
    ensures profiles[k].id in Ids(profiles) && PositionOf(profiles, profiles[k].id) == k
  {
    assert profiles[k].id in Ids(profiles);
    var j := PositionOf(profiles, profiles[k].id);
    assert j < k ==> Apart(profiles[j], profiles[k]);
    assert k < j ==> Apart(profiles[k], profiles[j]);
  }

  /** Metadata is no part of an object's identity. */
  lemma EditKeepsExact(policy: Policy, stored: Objects, m: Manifest, k: nat, metadata: Metadata)
    requires k < |m.profiles| && AllExact(policy, stored, m.profiles)
    ensures AllExact(policy, stored, WithMetadata(m, k, metadata).profiles)
  {
    var edited := WithMetadata(m, k, metadata).profiles;
    forall j | 0 <= j < |edited| ensures Exact(policy, stored, edited[j]) {
      assert Exact(policy, stored, m.profiles[j]);
    }
  }

  /** A profile's object is staged completely: renaming it cannot publish anything unsynced. */
  predicate Ready(d: Disk, txn: nat, p: Profile) {
    && txn in d.transactions && p.id in d.transactions[txn] && p.content.Sha256?
    && d.transactions[txn][p.id] == Staged(Files(p), true, true)
  }

  lemma FreshId(profiles: seq<Profile>, k: nat)
    requires k < |profiles| && ValidProfiles(profiles)
    ensures profiles[k].id !in Ids(profiles[..k])
    ensures Ids(profiles[..k + 1]) == Ids(profiles[..k]) + {profiles[k].id}
  {
    assert forall j :: 0 <= j < k ==> Apart(profiles[j], profiles[k]);
    assert profiles[..k + 1] == profiles[..k] + [profiles[k]];
    Collect(profiles[..k], profiles[k]);
  }

  // ----- staging ----------------------------------------------------------------------------

  /** One object is staged: its directory, its file with synced contents, its synced entries. */
  method Stage(fs: FileSystem, txn: nat, item: NewObject) returns (ok: bool)
    requires fs.Valid() && txn in fs.disk.transactions && item.profile.content == Sha256(item.bytes)
    modifies fs`disk, fs`log, fs`faults
    ensures fs.Valid() && OnlyStaged(old(fs.disk), fs.disk, txn, item.profile.id)
    ensures ok ==> Ready(fs.disk, txn, item.profile)
    ensures Extends(old(fs.log), fs.log, old(fs.disk.manifest.may))
    ensures old(fs.faults) <= fs.faults
    ensures ok <==> fs.faults == old(fs.faults) && item.profile.id !in old(fs.disk).transactions[txn]
  {
    var id, files := item.profile.id, map[FileName(item.profile) := item.bytes];
    if id in fs.disk.transactions[txn] { return false; }
    ok := fs.Scratch(MakeStaged(fs.disk, txn, id));
    if !ok { return; }
    ghost var made := fs.disk;
    ok := fs.WriteExclusive(txn, id, files);
    OnlyStagedFurther(old(fs.disk), made, fs.disk, txn, id);
    if !ok { return; }
    StagedAgain(old(fs.disk), txn, id, fs.disk.transactions[txn][id], Staged(files, true, true));
    ok := fs.Scratch(SyncStagedEntries(fs.disk, txn, id));
  }

  predicate AllReady(d: Disk, txn: nat, profiles: seq<Profile>, k: nat) {
    && k <= |profiles|
    && txn in d.transactions
    && (forall j :: 0 <= j < k ==> Ready(d, txn, profiles[j]))
    && d.transactions[txn].Keys <= Ids(profiles[..k])
  }

  lemma ReadyFurther(before: Disk, after: Disk, txn: nat, profiles: seq<Profile>, k: nat)
    requires k < |profiles| && ValidProfiles(profiles) && AllReady(before, txn, profiles, k)
    requires OnlyStaged(before, after, txn, profiles[k].id) && Ready(after, txn, profiles[k])
    ensures AllReady(after, txn, profiles, k + 1)
  {
    FreshId(profiles, k);
    StagedOthers(before, after, txn, profiles[k].id);
    forall j | 0 <= j < k ensures Ready(after, txn, profiles[j]) {
      assert Ready(before, txn, profiles[j]) && profiles[..k][j].id == profiles[j].id;
    }
  }

  method StageAll(fs: FileSystem, txn: nat, objects: seq<NewObject>) returns (ok: bool)
    requires fs.Valid() && txn in fs.disk.transactions && fs.disk.transactions[txn] == map[]
    requires forall k :: 0 <= k < |objects| ==> objects[k].profile.content == Sha256(objects[k].bytes)
    requires ValidProfiles(ProfilesOf(objects))
    modifies fs`disk, fs`log, fs`faults
    ensures fs.Valid() && fs.disk == old(fs.disk).(transactions := fs.disk.transactions)
    ensures fs.disk.transactions.Keys == old(fs.disk).transactions.Keys
    ensures ok ==> AllReady(fs.disk, txn, ProfilesOf(objects), |objects|)
    ensures Extends(old(fs.log), fs.log, old(fs.disk.manifest.may))
    ensures old(fs.faults) <= fs.faults && (fs.faults == old(fs.faults) ==> ok)
  {
    ghost var profiles := ProfilesOf(objects);
    for k := 0 to |objects|
      invariant fs.Valid() && fs.disk == old(fs.disk).(transactions := fs.disk.transactions)
      invariant fs.disk.transactions.Keys == old(fs.disk).transactions.Keys
      invariant AllReady(fs.disk, txn, profiles, k)
      invariant Extends(old(fs.log), fs.log, old(fs.disk.manifest.may))
      invariant old(fs.faults) <= fs.faults
    {
      ghost var before := fs.disk;
      FreshId(profiles, k);
      ok := Stage(fs, txn, objects[k]);
      StagedOthers(before, fs.disk, txn, objects[k].profile.id);
      if !ok { return; }
      ReadyFurther(before, fs.disk, txn, profiles, k);
    }
    ok := true;
  }

  ghost predicate AllMatch(policy: Policy, stored: Objects, profiles: seq<Profile>) {
    forall k :: 0 <= k < |profiles| ==> Matches(policy, stored, profiles[k])
  }

  lemma AllExactMatch(policy: Policy, stored: Objects, profiles: seq<Profile>)
    requires SoundObjects(policy, stored) && AllExact(policy, stored, profiles)
    ensures AllMatch(policy, stored, profiles)
  {
    forall k | 0 <= k < |profiles| ensures Matches(policy, stored, profiles[k]) {
      ExactNow(policy, stored, profiles[k]);
    }
  }

  /** readValidatedObject: what is read of a profile's object, checked against its record. */
  method ValidateObject(fs: FileSystem, p: Profile) returns (ok: bool)
    requires fs.Valid()
    modifies fs`faults
    ensures ok ==> Matches(fs.policy, fs.disk.stored, p)
    ensures old(fs.faults) <= fs.faults
    ensures fs.faults == old(fs.faults) && Matches(fs.policy, fs.disk.stored, p) ==> ok
  {
    ok := fs.Try();
    if !ok { return; }
    var entry := At(fs.disk.stored, SlotOf(p)).now;
    if !entry.Present? || entry.files.Keys != {FileName(p)} { return false; }
    var data := entry.files[FileName(p)];
    assert entry.files == map[FileName(p) := data];
    if ByteLength(data) > MAX_PROFILE_BYTES || Sha256(data) != p.content {
      assert SlotOf(p) in fs.disk.stored && Proper(fs.policy, SlotOf(p), entry);
      return false;
    }
    var accepted := fs.policy(p.protocol, data);
    ok := accepted.Some? && accepted.value == p.key;
  }

  // ----- installing -------------------------------------------------------------------------

  lemma SuffixOf(name: string, suffix: string)
    ensures HasSuffix(name + suffix, suffix) && TrimSuffix(name + suffix, suffix) == name
  {
    assert (name + suffix)[|name|..] == suffix && (name + suffix)[..|name|] == name;
  }

  /** A profile whose object the policy accepts and recovery recognises. */
  ghost predicate Installable(policy: Policy, p: Profile) {
    && p.content.Sha256?
    && policy(p.protocol, p.content.content) == Some(p.key)
    && Proper(policy, SlotOf(p), Present(Files(p)))
  }

  lemma AdmissibleInstallable(policy: Policy, o: NewObject)
    requires AdmissibleObject(policy, o)
    ensures Installable(policy, o.profile)
  {
    SuffixOf(o.profile.identifier, ".conf");
    var files := Files(o.profile);
    assert files.Keys == {FileName(o.profile)};
    assert |files.Keys| == 1;
  }

  /** Nothing of another content stands in the profile's place. */
  predicate Vacant(stored: Objects, p: Profile) {
    p.content.Sha256? && (At(stored, SlotOf(p)).now.Absent? || At(stored, SlotOf(p)).now == Present(Files(p)))
  }

  /** What one installation may change: the staged object and its place. */
  ghost predicate InstalledOne(policy: Policy, before: Disk, after: Disk, txn: nat, p: Profile) {
    && after == before.(stored := after.stored, transactions := after.transactions)
    && (forall q :: Exact(policy, before.stored, q) ==> Exact(policy, after.stored, q))
    && (forall s :: s != SlotOf(p) ==> At(after.stored, s).now == At(before.stored, s).now)
    && after.transactions.Keys == before.transactions.Keys
    && (forall q :: Ready(before, txn, q) && q.id != p.id ==> Ready(after, txn, q))
  }

  lemma InstallKeeps(policy: Policy, d: Disk, txn: nat, p: Profile)
    requires Consistent(policy, d) && Ready(d, txn, p) && Installable(policy, p)
    requires At(d.stored, SlotOf(p)).now.Absent?
    ensures var after := Install(d, txn, p.id, SlotOf(p));
      && Consistent(policy, after)
      && InstalledOne(policy, d, after, txn, p)
      && Matches(policy, after.stored, p)
  {
    var s, e := SlotOf(p), Present(Files(p));
    var after := Install(d, txn, p.id, s);
    assert after.stored == Put(d.stored, s, e, {});
    PutKeepsSound(policy, d, s, e);
    ReadyOthers(d, txn, p.id, s);
  }

  /** A new object at a free name leaves the protocol directories and every surviving manifest sound. */
  lemma PutKeepsSound(policy: Policy, d: Disk, s: Slot, e: Entry)
    requires Consistent(policy, d) && Proper(policy, s, e) && At(d.stored, s).now.Absent?
    ensures var stored := Put(d.stored, s, e, {});
      && SoundObjects(policy, stored) && SoundImages(policy, stored, d.manifest)
      && forall q :: Exact(policy, d.stored, q) ==> Exact(policy, stored, q)
  {
    PutKeeps(policy, d.stored, s, e);
    SoundKept(policy, d.stored, Put(d.stored, s, e, {}), d.manifest);
  }

  lemma ReadyOthers(d: Disk, txn: nat, id: Id, s: Slot)
    requires txn in d.transactions && id in d.transactions[txn]
    ensures forall q :: Ready(d, txn, q) && q.id != id ==> Ready(Install(d, txn, id, s), txn, q)
  {
    assert Install(d, txn, id, s).transactions[txn] == d.transactions[txn] - {id};
  }

  lemma SyncKeeps(policy: Policy, d: Disk, protocol: Protocol)
    requires Consistent(policy, d)
    ensures Consistent(policy, SyncProtocol(d, protocol))
    ensures forall p :: Exact(policy, d.stored, p) ==> Exact(policy, SyncProtocol(d, protocol).stored, p)
    ensures forall s :: At(SyncProtocol(d, protocol).stored, s).now == At(d.stored, s).now
    ensures forall p :: Matches(policy, d.stored, p) && p.protocol == protocol ==>
      Exact(policy, SyncProtocol(d, protocol).stored, p)
  {
    SettleKeeps(policy, d.stored, protocol);
    SoundKept(policy, d.stored, Settle(d.stored, protocol), d.manifest);
  }

  /** The staged object is moved into the protocol directory, or, if its name is taken, the object
      there is validated instead. */
  method Place(fs: FileSystem, txn: nat, p: Profile) returns (ok: bool)
    requires fs.Valid() && Ready(fs.disk, txn, p) && Installable(fs.policy, p)
    modifies fs`disk, fs`log, fs`faults
    ensures fs.Valid() && InstalledOne(fs.policy, old(fs.disk), fs.disk, txn, p)
    ensures ok ==> Matches(fs.policy, fs.disk.stored, p)
    ensures Extends(old(fs.log), fs.log, old(fs.disk.manifest.may))
    ensures old(fs.faults) <= fs.faults
    ensures !ok ==> old(fs.faults) < fs.faults || !Vacant(old(fs.disk).stored, p)
  {
    if At(fs.disk.stored, SlotOf(p)).now.Absent? {
      InstallKeeps(fs.policy, fs.disk, txn, p);
      ok := fs.Step(Install(fs.disk, txn, p.id, SlotOf(p)));
    } else {
      ok := ValidateObject(fs, p);
    }
  }

  /** Placed and then made durable by the sync of its directory. */
  method InstallOne(fs: FileSystem, txn: nat, p: Profile) returns (ok: bool)
    requires fs.Valid() && Ready(fs.disk, txn, p) && Installable(fs.policy, p)
    modifies fs`disk, fs`log, fs`faults
    ensures fs.Valid() && InstalledOne(fs.policy, old(fs.disk), fs.disk, txn, p)
    ensures ok ==> Exact(fs.policy, fs.disk.stored, p)
    ensures Extends(old(fs.log), fs.log, old(fs.disk.manifest.may))
    ensures old(fs.faults) <= fs.faults
    ensures !ok ==> old(fs.faults) < fs.faults || !Vacant(old(fs.disk).stored, p)
  {
    ok := Place(fs, txn, p);
    if !ok { return; }
    SyncKeeps(fs.policy, fs.disk, p.protocol);
    ok := fs.Step(SyncProtocol(fs.disk, p.protocol));
  }

  ghost predicate AllInstallable(policy: Policy, profiles: seq<Profile>) {
    forall k :: 0 <= k < |profiles| ==> Installable(policy, profiles[k])
  }

  predicate AllVacant(stored: Objects, profiles: seq<Profile>, from: nat) {
    forall k :: from <= k < |profiles| ==> Vacant(stored, profiles[k])
  }

  /** What the transfer of a batch may change: it adds objects, and what was exact stays so. */
  ghost predicate Transferred(policy: Policy, before: Disk, after: Disk) {
    && after == before.(stored := after.stored, transactions := after.transactions)
    && forall q :: Exact(policy, before.stored, q) ==> Exact(policy, after.stored, q)
  }

  /** The first k objects are installed and the others are still staged. */
  ghost predicate Halfway(policy: Policy, start: Disk, d: Disk, txn: nat, profiles: seq<Profile>, k: nat) {
    && Transferred(policy, start, d) && d.transactions.Keys == start.transactions.Keys
    && (forall j :: 0 <= j < k <= |profiles| ==> Exact(policy, d.stored, profiles[j]))
    && (forall j :: k <= j < |profiles| ==> Ready(d, txn, profiles[j]))
    && (AllVacant(start.stored, profiles, 0) ==> AllVacant(d.stored, profiles, k))
  }

  lemma InstalledOther(policy: Policy, before: Disk, after: Disk, txn: nat, p: Profile, q: Profile)
    requires InstalledOne(policy, before, after, txn, p) && q.id != p.id
    ensures Ready(before, txn, q) ==> Ready(after, txn, q)
    ensures Vacant(before.stored, q) ==> Vacant(after.stored, q)
  {
  }

  lemma InstalledFurther(policy: Policy, start: Disk, before: Disk, after: Disk, txn: nat, profiles: seq<Profile>,
                         k: nat)
    requires k < |profiles| && (forall j :: k < j < |profiles| ==> profiles[j].id != profiles[k].id)
    requires Halfway(policy, start, before, txn, profiles, k)
    requires InstalledOne(policy, before, after, txn, profiles[k]) && Exact(policy, after.stored, profiles[k])
    ensures Halfway(policy, start, after, txn, profiles, k + 1)
  {
    forall j | k < j < |profiles|
      ensures Ready(after, txn, profiles[j])
      ensures (Vacant(before.stored, profiles[j]) ==> Vacant(after.stored, profiles[j]))
    {
      InstalledOther(policy, before, after, txn, profiles[k], profiles[j]);
    }
  }

  lemma LaterIds(profiles: seq<Profile>, k: nat)
    requires k < |profiles| && ValidProfiles(profiles)
    ensures forall j :: k < j < |profiles| ==> profiles[j].id != profiles[k].id
  {
    forall j | k < j < |profiles| ensures profiles[j].id != profiles[k].id { assert Apart(profiles[k], profiles[j]); }
  }

  method InstallAll(fs: FileSystem, txn: nat, objects: seq<NewObject>) returns (ok: bool)
    requires fs.Valid() && AllReady(fs.disk, txn, ProfilesOf(objects), |objects|)
    requires ValidProfiles(ProfilesOf(objects)) && AllInstallable(fs.policy, ProfilesOf(objects))
    modifies fs`disk, fs`log, fs`faults
    ensures fs.Valid() && Transferred(fs.policy, old(fs.disk), fs.disk)
    ensures ok ==> AllExact(fs.policy, fs.disk.stored, ProfilesOf(objects))
    ensures ok ==> fs.disk.transactions.Keys == old(fs.disk).transactions.Keys
    ensures Extends(old(fs.log), fs.log, old(fs.disk.manifest.may))
    ensures old(fs.faults) <= fs.faults
    ensures !ok ==> old(fs.faults) < fs.faults || !AllVacant(old(fs.disk).stored, ProfilesOf(objects), 0)
  {
    ghost var profiles := ProfilesOf(objects);
    for k := 0 to |objects|
      invariant fs.Valid() && Halfway(fs.policy, old(fs.disk), fs.disk, txn, profiles, k)
      invariant Extends(old(fs.log), fs.log, old(fs.disk.manifest.may))
      invariant old(fs.faults) <= fs.faults
    {
      ok := InstallNext(fs, txn, objects, k, old(fs.disk));
      if !ok { return; }
    }
    ok := true;
  }

  method InstallNext(fs: FileSystem, txn: nat, objects: seq<NewObject>, k: nat, ghost start: Disk) returns (ok: bool)
    requires fs.Valid() && k < |objects| && Halfway(fs.policy, start, fs.disk, txn, ProfilesOf(objects), k)
    requires ValidProfiles(ProfilesOf(objects)) && AllInstallable(fs.policy, ProfilesOf(objects))
    modifies fs`disk, fs`log, fs`faults
    ensures fs.Valid() && Transferred(fs.policy, start, fs.disk)
    ensures ok ==> Halfway(fs.policy, start, fs.disk, txn, ProfilesOf(objects), k + 1)
    ensures Extends(old(fs.log), fs.log, old(fs.disk.manifest.may))
    ensures old(fs.faults) <= fs.faults
    ensures !ok ==> old(fs.faults) < fs.faults || !AllVacant(start.stored, ProfilesOf(objects), 0)
  {
    ghost var before, profiles := fs.disk, ProfilesOf(objects);
    ok := InstallOne(fs, txn, objects[k].profile);
    if ok {
      LaterIds(profiles, k);
      InstalledFurther(fs.policy, start, before, fs.disk, txn, profiles, k);
    }
  }

  /** The transaction of Publish up to its commit: everything staged, then everything installed.
      It may fail anywhere; what was exact stays so. */
  method Transfer(fs: FileSystem, objects: seq<NewObject>) returns (ok: bool, txn: nat)
    requires fs.Valid() && forall k :: 0 <= k < |objects| ==> AdmissibleObject(fs.policy, objects[k])
    requires ValidProfiles(ProfilesOf(objects))
    modifies fs`disk, fs`log, fs`faults
    ensures fs.Valid() && Transferred(fs.policy, old(fs.disk), fs.disk)
    ensures ok ==> AllExact(fs.policy, fs.disk.stored, ProfilesOf(objects))
    ensures ok ==>
      fs.disk.transactions.Keys == old(fs.disk).transactions.Keys + {txn} && txn !in old(fs.disk).transactions
    ensures Extends(old(fs.log), fs.log, old(fs.disk.manifest.may))
    ensures old(fs.faults) <= fs.faults
    ensures !ok ==> old(fs.faults) < fs.faults || !AllVacant(old(fs.disk).stored, ProfilesOf(objects), 0)
  {
    var name: nat := *;
    txn := name;
    ok := fs.Try();
    if !ok { return; }
    if txn in fs.disk.transactions { fs.faults := fs.faults + 1; return false, txn; }
    ok := fs.Scratch(MakeTransaction(fs.disk, txn));
    if !ok { return; }
    ok := StageAll(fs, txn, objects);
    if !ok { return; }
    ok := fs.Try();  // the transaction's own sync
    if !ok { return; }
    forall k | 0 <= k < |objects| ensures Installable(fs.policy, ProfilesOf(objects)[k]) {
      AdmissibleInstallable(fs.policy, objects[k]);
    }
    ok := InstallAll(fs, txn, objects);
  }

  lemma JoinedExact(policy: Policy, stored: Objects, a: seq<Profile>, b: seq<Profile>)
    requires AllExact(policy, stored, a) && AllExact(policy, stored, b)
    ensures AllExact(policy, stored, a + b)
  {
  }

  /** What a publication changes: the new profiles follow the old ones, and the revision is raised; an
      empty batch changes nothing. */
  ghost predicate PublicationEdit(before: Manifest, after: Manifest, objects: seq<NewObject>) {
    if objects == [] then after == before
    else
      && after == before.(revision := before.revision + 1, profiles := after.profiles)
      && |after.profiles| == |before.profiles| + |objects| && before.profiles <= after.profiles
      && forall k :: 0 <= k < |objects| ==> after.profiles[|before.profiles| + k] == objects[k].profile
  }

  function Published(m: Manifest, objects: seq<NewObject>): Manifest {
    if objects == [] then m else WithProfiles(m, ProfilesOf(objects))
  }

  predicate Accepts(policy: Policy, m: Manifest, expected: nat, objects: seq<NewObject>) {
    m.revision == expected && (objects != [] ==> Publishable(policy, m, objects))
  }

  // ----- disposal ---------------------------------------------------------------------------

  lemma RestExact(policy: Policy, stored: Objects, profiles: seq<Profile>, id: Id)
    requires AllExact(policy, stored, profiles)
    ensures AllExact(policy, stored, WithoutProfile(profiles, id))
  {
    WithoutProfileExact(profiles, id);
    var rest := WithoutProfile(profiles, id);
    forall k | 0 <= k < |rest| ensures Exact(policy, stored, rest[k]) {
      assert rest[k] in profiles;
    }
  }

  predicate Referenced(profiles: seq<Profile>, s: Slot) {
    exists k :: 0 <= k < |profiles| && SlotOf(profiles[k]) == s
  }

  /** No manifest that could survive a crash names the slot. */
  ghost predicate Unreferenced(d: Disk, s: Slot) {
    forall i :: i in d.manifest.may && i.Json? ==> !Referenced(i.manifest.profiles, s)
  }

  lemma NotReferenced(profiles: seq<Profile>, s: Slot)
    requires s.id !in Ids(profiles)
    ensures !Referenced(profiles, s)
  {
  }

  lemma DiscardKeeps(policy: Policy, d: Disk, s: Slot, trash: Trash)
    requires Consistent(policy, d) && Unreferenced(d, s)
    ensures Consistent(policy, Discard(d, s, trash))
  {
    PutKeeps(policy, d.stored, s, Absent);
    var after := Put(d.stored, s, Absent, {});
    forall i, k | i in d.manifest.may && i.Json? && 0 <= k < |i.manifest.profiles|
      ensures Exact(policy, after, i.manifest.profiles[k])
    {
      assert Sound(policy, d.stored, i) && !Referenced(i.manifest.profiles, s);
    }
    SoundKept(policy, d.stored, after, d.manifest);
  }

  /** Rename into the garbage and sync of both directories: never of a slot that a manifest which
      could survive still names. */
  method MoveOut(fs: FileSystem, s: Slot, trash: Trash) returns (ok: bool)
    requires fs.Valid() && Unreferenced(fs.disk, s)
    modifies fs`disk, fs`log, fs`faults
    ensures fs.Valid() && MovedOut(old(fs.disk), fs.disk, s, trash)
    ensures ok ==> At(fs.disk.stored, s).may == {Absent} && trash in fs.disk.garbage
    ensures Extends(old(fs.log), fs.log, fs.disk.manifest.may)
    ensures old(fs.faults) <= fs.faults && (ok <==> fs.faults == old(fs.faults))
  {
    DiscardKeeps(fs.policy, fs.disk, s, trash);
    ok := fs.Step(Discard(fs.disk, s, trash));
    if !ok { return; }
    SyncKeeps(fs.policy, fs.disk, s.protocol);
    SettleKeeps(fs.policy, fs.disk.stored, s.protocol);
    ok := fs.Step(SyncProtocol(fs.disk, s.protocol));
    var synced := fs.Try();  // the sync of the garbage directory
    ok := ok && synced;
  }

  ghost predicate MovedOut(before: Disk, after: Disk, s: Slot, trash: Trash) {
    && after == before.(stored := after.stored, garbage := after.garbage)
    && before.garbage <= after.garbage <= before.garbage + {trash}
    && NowElsewhere(before.stored, after.stored, s)
  }

  /** Nothing visible changed but at one slot. */
  ghost predicate NowElsewhere(before: Objects, after: Objects, s: Slot) {
    forall t :: t != s ==> At(after, t).now == At(before, t).now
  }

  /** Moved out, and then deleted. */
  method Dispose(fs: FileSystem, s: Slot, trash: Trash) returns (ok: bool)
    requires fs.Valid() && Unreferenced(fs.disk, s) && trash !in fs.disk.garbage
    modifies fs`disk, fs`log, fs`faults
    ensures fs.Valid() && MovedOut(old(fs.disk), fs.disk, s, trash)
    ensures ok ==> At(fs.disk.stored, s).may == {Absent} && fs.disk.garbage == old(fs.disk).garbage
    ensures Extends(old(fs.log), fs.log, fs.disk.manifest.may)
    ensures old(fs.faults) <= fs.faults && (ok <==> fs.faults == old(fs.faults))
  {
    ok := MoveOut(fs, s, trash);
    if !ok { return; }
    ok := fs.Scratch(fs.disk.(garbage := fs.disk.garbage - {trash}));
    if !ok { return; }
    ok := fs.Try();
  }

  /** The outcome of a removal: nil and an ambiguous outcome removed exactly this profile, any other
      error changed nothing. */
  ghost predicate RemovalMeets(before: Manifest, id: Id, errs: Failure, after: Manifest) {
    && MutationMeets(before, Removed(before, id), id in Ids(before.profiles), errs, after)
    && (errs == {} || after != before ==> RemovalEdit(before, after, id))
    && (errs != {} && OutcomeAmbiguous !in errs ==> after == before)
    && (errs == {NotFound} || errs <= {OutcomeAmbiguous, Failed})
    && (NotFound in errs ==> id !in Ids(before.profiles))
    && (id !in Ids(before.profiles) ==> errs == {NotFound} || OutcomeAmbiguous in errs)
  }

  /** No crash brings the object of the profile with this ID back. */
  ghost predicate Gone(d: Disk, profiles: seq<Profile>, id: Id) {
    forall k :: 0 <= k < |profiles| && profiles[k].id == id ==> At(d.stored, SlotOf(profiles[k])).may == {Absent}
  }

  lemma GoneWith(d: Disk, profiles: seq<Profile>, p: Profile)
    requires ValidProfiles(profiles) && p in profiles
    ensures At(d.stored, SlotOf(p)).may == {Absent} ==> Gone(d, profiles, p.id)
  {
    forall k | 0 <= k < |profiles| && profiles[k].id == p.id
      ensures profiles[k] == p
    {
      OneProfile(profiles, profiles[k], p);
    }
  }

  /** The change that SetConnection makes; it is valid exactly for no profile or a known one and a time
      that is not negative. */
  method ConnectionCandidate(m: Manifest, desired: Id, connectedAt: int, addRecent: bool)
    returns (candidate: Manifest, ghost valid: bool)
    requires ValidManifest(m)
    ensures candidate == WithConnection(m, desired, connectedAt, addRecent) && candidate.profiles == m.profiles
    ensures valid == ValidManifest(candidate) == ((desired == "" || desired in Ids(m.profiles)) && connectedAt >= 0)
  {
    var recents := m.recents;
    if addRecent && desired != "" {
      recents := PrependUnique(m.recents, desired, MAX_RECENTS);
    }
    candidate := m.(revision := m.revision + 1, desired := desired, connectedAt := connectedAt, recents := recents);
    ConnectionValid(m, desired, connectedAt, addRecent);
    valid := ValidManifest(candidate);
  }

  method RemovalCandidate(m: Manifest, id: Id) returns (candidate: Manifest)
    ensures candidate == Removed(m, id)
  {
    var profiles := RemoveProfile(m.profiles, id);
    var favorites := RemoveId(m.favorites, id);
    var recents := RemoveId(m.recents, id);
    candidate := m.(revision := m.revision + 1, profiles := profiles, favorites := favorites, recents := recents);
    if candidate.desired == id { candidate := candidate.(desired := "", connectedAt := 0); }
  }

  // ----- execution copies ---------------------------------------------------------------------

  /** The files are a byte-exact copy of the object of the profile with this ID. */
  predicate IsCopy(m: Manifest, id: Id, files: map<string, string>) {
    exists k :: 0 <= k < |m.profiles|
                && m.profiles[k].id == id
                && m.profiles[k].content.Sha256?
                && files == Files(m.profiles[k])
  }

  /** The directory, its file and their syncs; what is incomplete is removed again if possible. */
  method CopyExecution(fs: FileSystem, n: nat, files: map<string, string>) returns (ok: bool)
    requires fs.Valid() && n !in fs.disk.executions
    modifies fs`disk, fs`log, fs`faults
    ensures fs.Valid() && fs.disk == old(fs.disk).(executions := fs.disk.executions)
    ensures fs.disk.executions - {n} == old(fs.disk).executions - {n}
    ensures ok ==> n in fs.disk.executions && fs.disk.executions[n] == files
    ensures Extends(old(fs.log), fs.log, fs.disk.manifest.may)
    ensures old(fs.faults) <= fs.faults && (fs.faults == old(fs.faults) ==> ok)
  {
    ok := WriteCopy(fs, n, map[]);
    if !ok { return; }
    ok := WriteCopy(fs, n, files);
    if ok { ok := fs.Try(); }  // the sync of the copy, and of the directory of the copies
    if !ok { var removed := fs.RemoveExecution(n); }
  }

  method WriteCopy(fs: FileSystem, n: nat, files: map<string, string>) returns (ok: bool)
    requires fs.Valid()
    modifies fs`disk, fs`log, fs`faults
    ensures fs.Valid() && fs.disk == old(fs.disk).(executions := fs.disk.executions)
    ensures fs.disk.executions - {n} == old(fs.disk).executions - {n}
    ensures n in old(fs.disk).executions ==> n in fs.disk.executions
    ensures ok ==> n in fs.disk.executions && fs.disk.executions[n] == files
    ensures Extends(old(fs.log), fs.log, fs.disk.manifest.may)
    ensures fs.faults == if ok then old(fs.faults) else old(fs.faults) + 1
  {
    ok := fs.Scratch(fs.disk.(executions := fs.disk.executions[n := files]));
  }

  class Store {
    const fs: FileSystem
    var manifest: Manifest
    var unknown: bool  // durabilityUnknown

    constructor (fs: FileSystem, manifest: Manifest)
      ensures this.fs == fs && this.manifest == manifest && !unknown
    {
      this.fs, this.manifest, this.unknown := fs, manifest, false;
    }

    /** The manifest in memory is the visible manifest file; unless its durability is unknown, no
        crash can leave another; and every state of the disk so far was consistent. */
    ghost predicate Valid()
      reads this, fs
    {
      && fs.Valid()
      && ValidManifest(manifest)
      && fs.disk.manifest.now == Json(manifest)
      && (!unknown ==> fs.disk.manifest.may == {Json(manifest)})
    }

    /** publishManifestLocked. */
    method PublishManifest(candidate: Manifest) returns (errs: Failure)
      requires Valid() && !unknown
      requires ValidManifest(candidate) && AllExact(fs.policy, fs.disk.stored, candidate.profiles)
      modifies this, fs`disk, fs`log, fs`faults
      ensures Valid() && fs.disk == old(fs.disk).(manifest := fs.disk.manifest, temps := fs.disk.temps)
      ensures errs == {} ==> manifest == candidate && !unknown
      ensures OutcomeAmbiguous in errs ==> manifest == candidate && unknown
      ensures errs != {} && OutcomeAmbiguous !in errs ==> manifest == old(manifest) && !unknown
      ensures Extends(old(fs.log), fs.log, {Json(old(manifest)), Json(candidate)})
      ensures errs == {} || errs == {Failed} || errs == {OutcomeAmbiguous, Failed}
      ensures old(fs.faults) <= fs.faults && (fs.faults == old(fs.faults) ==> errs == {})
    {
      var published, durable := fs.WriteJsonAtomic(candidate);
      if !published { return {Failed}; }
      manifest, unknown := candidate, !durable;
      errs := if durable then {} else {OutcomeAmbiguous, Failed};
    }

    /** validateReferencedObjects: whatever is stored, each object is looked at. */
    method ValidateReferenced(profiles: seq<Profile>) returns (ok: bool)
      requires fs.Valid()
      modifies fs`faults
      ensures ok ==> AllMatch(fs.policy, fs.disk.stored, profiles)
      ensures old(fs.faults) <= fs.faults
      ensures fs.faults == old(fs.faults) && AllMatch(fs.policy, fs.disk.stored, profiles) ==> ok
    {
      for k := 0 to |profiles|
        invariant old(fs.faults) <= fs.faults && fs.Valid()
        invariant forall j :: 0 <= j < k ==> Matches(fs.policy, fs.disk.stored, profiles[j])
      {
        ok := ValidateObject(fs, profiles[k]);
        if !ok { return; }
      }
      ok := true;
    }

    /** repairDurabilityLocked: settles an ambiguous publication; what is visible does not change. */
    method RepairDurability() returns (errs: Failure)
      requires Valid()
      modifies this`manifest, this`unknown, fs`disk, fs`log, fs`faults
      ensures Valid() && manifest == old(manifest) && fs.disk == old(fs.disk).(manifest := fs.disk.manifest)
      ensures errs == {} ==> !unknown
      ensures errs != {} ==> errs == {OutcomeAmbiguous, Failed} && old(unknown)
      ensures fs.disk.manifest.may <= old(fs.disk.manifest.may)
      ensures Extends(old(fs.log), fs.log, old(fs.disk.manifest.may))
      ensures old(fs.faults) <= fs.faults && (fs.faults == old(fs.faults) ==> errs == {})
    {
      if !unknown { return {}; }
      errs := {OutcomeAmbiguous, Failed};
      var ok := fs.Try();
      if !ok { return; }
      var read := fs.disk.manifest.now.manifest;
      var valid := ValidateManifest(read);
      if !valid { return; }
      AllExactMatch(fs.policy, fs.disk.stored, read.profiles);
      ok := ValidateReferenced(read.profiles);
      if !ok { return; }
      ok := fs.Try();  // the manifest file's own sync
      if !ok { return; }
      ok := fs.Call(SyncRoot(fs.disk));
      if !ok { return; }
      manifest, unknown, errs := read, false, {};
    }

    /** The end of mutate: after the repair and the change, the candidate is validated and published. */
    method Mutate(candidate: Manifest) returns (errs: Failure)
      requires Valid() && !unknown
      requires ValidManifest(candidate) ==> AllExact(fs.policy, fs.disk.stored, candidate.profiles)
      modifies this, fs`disk, fs`log, fs`faults
      ensures Valid() && fs.disk == old(fs.disk).(manifest := fs.disk.manifest, temps := fs.disk.temps)
      ensures MutationMeets(old(manifest), candidate, ValidManifest(candidate), errs, manifest)
      ensures errs != {} && OutcomeAmbiguous !in errs ==> manifest == old(manifest) && !unknown
      ensures errs == {} ==> !unknown
      ensures Extends(old(fs.log), fs.log, {Json(old(manifest)), Json(candidate)})
      ensures old(fs.faults) <= fs.faults
      ensures (fs.faults == old(fs.faults) ==> (errs == {} <==> ValidManifest(candidate)))
    {
      var valid := ValidateManifest(candidate);
      if !valid { return {Failed}; }
      errs := PublishManifest(candidate);
    }

    /** SetConnection: refused exactly for an unknown profile or a negative time. */
    method SetConnection(desired: Id, connectedAt: int, addRecent: bool) returns (errs: Failure)
      requires Valid()
      modifies this, fs`disk, fs`log, fs`faults
      ensures Valid() && fs.disk == old(fs.disk).(manifest := fs.disk.manifest, temps := fs.disk.temps)
      ensures var candidate := WithConnection(old(manifest), desired, connectedAt, addRecent);
        && MutationMeets(old(manifest), candidate, ValidManifest(candidate), errs, manifest)
        && Extends(old(fs.log), fs.log, old(fs.disk.manifest.may) + {Json(candidate)})
      ensures errs == {} || manifest != old(manifest) ==>
        ConnectionEdit(old(manifest), manifest, desired, connectedAt, addRecent)
      ensures errs == {} || OutcomeAmbiguous !in errs ==> !unknown
      ensures old(fs.faults) <= fs.faults
      ensures fs.faults == old(fs.faults) ==>
        (errs == {} <==> (desired == "" || desired in Ids(old(manifest).profiles)) && connectedAt >= 0)
    {
      errs := RepairDurability();
      if errs != {} { return; }
      var candidate;
      ghost var valid;
      ConnectionExact(manifest, desired, connectedAt, addRecent);
      candidate, valid := ConnectionCandidate(manifest, desired, connectedAt, addRecent);
      ghost var repaired := fs.log;
      errs := Mutate(candidate);
      Further(old(fs.log), repaired, fs.log, old(fs.disk.manifest.may) + {Json(candidate)},
              {Json(old(manifest)), Json(candidate)});
    }

    method SetPreferences(favorites: seq<Id>, recents: seq<Id>, startup: Startup) returns (errs: Failure)
      requires Valid()
      modifies this, fs`disk, fs`log, fs`faults
      ensures Valid() && fs.disk == old(fs.disk).(manifest := fs.disk.manifest, temps := fs.disk.temps)
      ensures var m := old(manifest);
        var candidate := m.(revision := m.revision + 1, favorites := favorites, recents := recents, startup := startup);
        && MutationMeets(m, candidate, ValidManifest(candidate), errs, manifest)
        && Extends(old(fs.log), fs.log, old(fs.disk.manifest.may) + {Json(candidate)})
      ensures errs == {} || OutcomeAmbiguous !in errs ==> !unknown
      ensures old(fs.faults) <= fs.faults
      ensures fs.faults == old(fs.faults) ==>
        (errs == {} <==>
          && ValidList(favorites, MAX_PROFILES, Ids(old(manifest).profiles))
          && ValidList(recents, MAX_RECENTS, Ids(old(manifest).profiles)))
    {
      errs := RepairDurability();
      if errs != {} { return; }
      var candidate := manifest.(
        revision := manifest.revision + 1, favorites := favorites, recents := recents, startup := startup);
      errs := Mutate(candidate);
    }

    /** UpdateMetadata: changes the metadata of the one named profile, and nothing of its identity; an
        empty patch is refused, and changes nothing. */
    method UpdateMetadata(id: Id, patch: Patch) returns (errs: Failure)
      requires Valid()
      modifies this, fs`disk, fs`log, fs`faults
      ensures Valid() && fs.disk == old(fs.disk).(manifest := fs.disk.manifest, temps := fs.disk.temps)
      ensures patch == EMPTY_PATCH ==> errs == {Failed} && unchanged(this) && unchanged(fs)
      ensures errs == {} || manifest != old(manifest) ==>
        id in Ids(old(manifest).profiles) && MetadataEdit(old(manifest), manifest, id, patch)
      ensures patch != EMPTY_PATCH && (errs == {} || OutcomeAmbiguous !in errs) ==> !unknown
      ensures patch != EMPTY_PATCH && id in Ids(old(manifest).profiles) ==>
        && var candidate := Edit(old(manifest), id, patch);
        && MutationMeets(old(manifest), candidate, ValidManifest(candidate), errs, manifest)
        && Extends(old(fs.log), fs.log, old(fs.disk.manifest.may) + {Json(candidate)})
        && (fs.faults == old(fs.faults) ==> (errs == {} <==> ValidManifest(candidate)))
      ensures patch != EMPTY_PATCH && id !in Ids(old(manifest).profiles) ==>
        && manifest == old(manifest) && Extends(old(fs.log), fs.log, old(fs.disk.manifest.may))
        && (errs == {NotFound} || errs == {OutcomeAmbiguous, Failed})
      ensures old(fs.log) <= fs.log && old(fs.faults) <= fs.faults
    {
      if patch == EMPTY_PATCH { return {Failed}; }
      errs := RepairDurability();
      if errs != {} { return; }
      var k := IndexOf(manifest.profiles, id);
      if k == |manifest.profiles| { return {NotFound}; }
      assert k == PositionOf(manifest.profiles, id) by { OnlyPosition(manifest.profiles, k); }
      MetadataExact(manifest, k, patch);
      errs := EditAt(k, Patched(manifest.profiles[k].metadata, patch));
    }

    method EditAt(k: nat, metadata: Metadata) returns (errs: Failure)
      requires Valid() && !unknown && k < |manifest.profiles|
      modifies this, fs`disk, fs`log, fs`faults
      ensures Valid() && fs.disk == old(fs.disk).(manifest := fs.disk.manifest, temps := fs.disk.temps)
      ensures var candidate := WithMetadata(old(manifest), k, metadata);
        && MutationMeets(old(manifest), candidate, ValidManifest(candidate), errs, manifest)
        && Extends(old(fs.log), fs.log, {Json(old(manifest)), Json(candidate)})
        && old(fs.faults) <= fs.faults && (fs.faults == old(fs.faults) ==> (errs == {} <==> ValidManifest(candidate)))
      ensures errs == {} || OutcomeAmbiguous !in errs ==> !unknown
    {
      MetadataValid(manifest, k, metadata);
      if !ValidMetadata(metadata) { return {Failed}; }
      EditKeepsExact(fs.policy, fs.disk.stored, manifest, k, metadata);
      errs := Mutate(WithMetadata(manifest, k, metadata));
    }

    /** Resolve: the record of a profile whose object still matches it. */
    method Resolve(id: Id) returns (errs: Failure, profile: Option<Profile>)
      requires Valid()
      modifies fs`faults
      ensures errs == {} ==> profile.Some? && profile.value in manifest.profiles
      ensures errs == {} ==> profile.value.id == id && Matches(fs.policy, fs.disk.stored, profile.value)
      ensures errs != {} ==> errs == {NotFound} || errs == {Failed}
      ensures errs == {NotFound} <==> id !in Ids(manifest.profiles)
      ensures old(fs.faults) <= fs.faults
      ensures fs.faults == old(fs.faults) ==> (errs == {} <==> id in Ids(manifest.profiles))
    {
      profile := Lookup(manifest.profiles, id);
      if profile.None? { return {NotFound}, None; }
      ExactNow(fs.policy, fs.disk.stored, profile.value);
      var ok := ValidateObject(fs, profile.value);
      errs := if ok then {} else {Failed};
    }

    // ----- publication ------------------------------------------------------------------------

    /** Publish after its admission: the objects become durable before the manifest names them, and
        the transaction is removed after. */
    method CommitBatch(objects: seq<NewObject>, candidate: Manifest) returns (errs: Failure, pending: bool)
      requires Valid() && !unknown
      requires Publishable(fs.policy, manifest, objects) && candidate == WithProfiles(manifest, ProfilesOf(objects))
      modifies this, fs`disk, fs`log, fs`faults
      ensures Valid()
      ensures errs == {} ==> manifest == candidate && !unknown
      ensures OutcomeAmbiguous in errs ==> manifest == candidate && unknown && pending
      ensures errs != {} && OutcomeAmbiguous !in errs ==> manifest == old(manifest) && !unknown && !pending
      ensures errs <= {OutcomeAmbiguous, Failed}
      ensures errs == {} && !pending ==> fs.disk.transactions.Keys == old(fs.disk).transactions.Keys
      ensures Extends(old(fs.log), fs.log, {Json(old(manifest)), Json(candidate)})
      ensures old(fs.faults) <= fs.faults
      ensures fs.faults == old(fs.faults) && AllVacant(old(fs.disk).stored, ProfilesOf(objects), 0) ==>
        errs == {} && !pending
    {
      pending := false;
      ValidSuffix(manifest.profiles, ProfilesOf(objects));
      var ok, txn := Transfer(fs, objects);
      if !ok { return {Failed}, false; }
      assert AllExact(fs.policy, fs.disk.stored, candidate.profiles) by {
        assert AllExact(fs.policy, old(fs.disk).stored, manifest.profiles);
        JoinedExact(fs.policy, fs.disk.stored, manifest.profiles, ProfilesOf(objects));
      }
      errs := PublishManifest(candidate);
      pending := OutcomeAmbiguous in errs;
      if errs == {} { pending := CleanTransaction(txn); }
    }

    /** The transaction's removal: a failure leaves it for the next opening. */
    method CleanTransaction(txn: nat) returns (pending: bool)
      requires Valid()
      modifies fs`disk, fs`log, fs`faults
      ensures Valid() && fs.disk == old(fs.disk).(transactions := fs.disk.transactions)
      ensures !pending ==> fs.disk.transactions == old(fs.disk).transactions - {txn}
      ensures Extends(old(fs.log), fs.log, fs.disk.manifest.may)
      ensures old(fs.faults) <= fs.faults && (fs.faults == old(fs.faults) ==> !pending)
    {
      var ok := fs.Try();
      if !ok { return true; }
      if txn in fs.disk.transactions {
        ok := fs.RemoveTransaction(txn);
        if !ok { return true; }
      }
      ok := fs.Try();  // the sync of the transactions directory
      pending := !ok;
    }

    /** Publish of a batch that is not empty, against the manifest at hand. */
    method PublishNew(objects: seq<NewObject>) returns (errs: Failure, pending: bool)
      requires Valid() && !unknown && objects != []
      modifies this, fs`disk, fs`log, fs`faults
      ensures Valid()
      ensures errs == {} || OutcomeAmbiguous in errs ==>
        Publishable(fs.policy, old(manifest), objects) && manifest == Published(old(manifest), objects)
      ensures errs == {} || OutcomeAmbiguous !in errs ==> !unknown
      ensures errs != {} && OutcomeAmbiguous !in errs ==> manifest == old(manifest)
      ensures errs != {} ==> (pending <==> OutcomeAmbiguous in errs)
      ensures errs <= {OutcomeAmbiguous, Capacity, DuplicateObject, Failed}
      ensures |old(manifest).profiles| + |objects| > MAX_PROFILES ==> errs == {Capacity}
      ensures Capacity in errs ==> |old(manifest).profiles| + |objects| > MAX_PROFILES
      ensures errs == {} && !pending ==> fs.disk.transactions.Keys == old(fs.disk).transactions.Keys
      ensures Extends(old(fs.log), fs.log, {Json(old(manifest)), Json(Published(old(manifest), objects))})
      ensures old(fs.faults) <= fs.faults
      ensures fs.faults == old(fs.faults) && AllVacant(old(fs.disk).stored, ProfilesOf(objects), 0) ==>
        (errs == {} <==> Publishable(fs.policy, old(manifest), objects))
    {
      var candidate;
      errs, candidate := Admit(fs.policy, manifest, objects);
      pending := false;
      if errs == {} { errs, pending := CommitBatch(objects, candidate); }
    }

    /** Publish: the whole batch or nothing, against the revision the caller inspected. */
    method Publish(expected: nat, objects: seq<NewObject>) returns (errs: Failure, pending: bool)
      requires Valid()
      modifies this, fs`disk, fs`log, fs`faults
      ensures Valid()
      ensures errs == {} ==>
        Accepts(fs.policy, old(manifest), expected, objects) && manifest == Published(old(manifest), objects)
      ensures errs == {} || OutcomeAmbiguous !in errs ==> !unknown
      ensures errs != {} && OutcomeAmbiguous !in errs ==> manifest == old(manifest)
      ensures OutcomeAmbiguous in errs ==>
        || manifest == old(manifest)
        || (Accepts(fs.policy, old(manifest), expected, objects) && manifest == Published(old(manifest), objects))
      ensures StaleInspection in errs ==> old(manifest).revision != expected
      ensures Capacity in errs ==> |old(manifest).profiles| + |objects| > MAX_PROFILES
      ensures fs.faults == old(fs.faults) && old(manifest).revision != expected ==> errs == {StaleInspection}
      ensures fs.faults == old(fs.faults) && old(manifest).revision == expected && objects != [] ==>
        |old(manifest).profiles| + |objects| > MAX_PROFILES ==> errs == {Capacity}
      ensures errs == {} && !pending ==> fs.disk.transactions.Keys == old(fs.disk).transactions.Keys
      ensures errs != {} ==> (pending <==> manifest != old(manifest))
      ensures errs == {} || manifest != old(manifest) ==> PublicationEdit(old(manifest), manifest, objects)
      ensures Extends(old(fs.log), fs.log, old(fs.disk.manifest.may) + {Json(Published(old(manifest), objects))})
      ensures old(fs.faults) <= fs.faults
      ensures fs.faults == old(fs.faults) && AllVacant(old(fs.disk).stored, ProfilesOf(objects), 0) ==>
        (errs == {} <==> Accepts(fs.policy, old(manifest), expected, objects))
    {
      pending := false;
      errs := RepairDurability();
      if errs != {} { return; }
      if manifest.revision != expected { return {StaleInspection}, false; }
      if objects != [] { errs, pending := PublishNew(objects); }
    }

    // ----- removal ----------------------------------------------------------------------------

    /** The part of Remove that decides: the manifest without the profile is published. */
    method Forget(id: Id) returns (errs: Failure, removed: Option<Profile>)
      requires Valid()
      modifies this, fs`disk, fs`log, fs`faults
      ensures Valid() && fs.disk == old(fs.disk).(manifest := fs.disk.manifest, temps := fs.disk.temps)
      ensures RemovalMeets(old(manifest), id, errs, manifest)
      ensures errs == {} || OutcomeAmbiguous !in errs ==> !unknown
      ensures errs == {} ==> removed.Some? && removed.value in old(manifest).profiles && removed.value.id == id
      ensures Extends(old(fs.log), fs.log, old(fs.disk.manifest.may) + {Json(Removed(old(manifest), id))})
      ensures old(fs.faults) <= fs.faults
      ensures fs.faults == old(fs.faults) ==> (errs == {} <==> id in Ids(old(manifest).profiles))
    {
      removed := None;
      errs := RepairDurability();
      if errs != {} { return; }
      removed := Lookup(manifest.profiles, id);
      if removed.None? { return {NotFound}, None; }
      var candidate := RemovalCandidate(manifest, id);
      RemovedValid(manifest, id);
      RemovedExact(manifest, id);
      RestExact(fs.policy, fs.disk.stored, manifest.profiles, id);
      var valid := ValidateManifest(candidate);
      if !valid { return {Failed}, removed; }
      ghost var repaired := fs.log;
      errs := PublishManifest(candidate);
      Further(old(fs.log), repaired, fs.log, old(fs.disk.manifest.may) + {Json(candidate)},
              {Json(old(manifest)), Json(candidate)});
    }

    /** Remove: the manifest without the profile becomes durable before its object is touched. */
    method Remove(id: Id) returns (errs: Failure, pending: bool)
      requires Valid()
      modifies this, fs`disk, fs`log, fs`faults
      ensures Valid()
      ensures RemovalMeets(old(manifest), id, errs, manifest)
      ensures errs == {} || OutcomeAmbiguous !in errs ==> !unknown
      ensures Extends(old(fs.log), fs.log, old(fs.disk.manifest.may) + {Json(Removed(old(manifest), id))})
      ensures old(fs.faults) <= fs.faults
      ensures fs.faults == old(fs.faults) ==> (errs == {} <==> id in Ids(old(manifest).profiles))
      ensures errs == {} && !pending ==> Gone(fs.disk, old(manifest).profiles, id)
      ensures errs == {} && old(fs.disk).garbage == {} && fs.faults == old(fs.faults) ==> !pending
    {
      pending := false;
      var removed;
      errs, removed := Forget(id);
      if errs != {} { return; }
      RemovedIds(old(manifest).profiles, id);
      ExactNow(fs.policy, old(fs.disk).stored, removed.value);
      ghost var forgotten := fs.log;
      var collected := GarbageCollect(removed.value);
      Further(old(fs.log), forgotten, fs.log, old(fs.disk.manifest.may) + {Json(manifest)}, {Json(manifest)});
      pending := !collected;
      GoneWith(fs.disk, old(manifest).profiles, removed.value);
    }

    /** garbageCollectObjectLocked: the object of a profile that no manifest names any more is moved
        to the garbage, the move is made durable, and then it is deleted. */
    method GarbageCollect(p: Profile) returns (ok: bool)
      requires Valid() && !unknown && p.id !in Ids(manifest.profiles)
      modifies fs`disk, fs`log, fs`faults
      ensures Valid() && MovedOut(old(fs.disk), fs.disk, SlotOf(p), RemovedAt(manifest.revision, p.id))
      ensures ok ==> At(fs.disk.stored, SlotOf(p)).may == {Absent} && fs.disk.garbage == old(fs.disk).garbage
      ensures Extends(old(fs.log), fs.log, fs.disk.manifest.may)
      ensures old(fs.faults) <= fs.faults
      ensures ok <==> fs.faults == old(fs.faults) && At(old(fs.disk).stored, SlotOf(p)).now.Present?
                      && RemovedAt(manifest.revision, p.id) !in old(fs.disk).garbage
    {
      var trash := RemovedAt(manifest.revision, p.id);
      ok := fs.Try();
      if !ok { return; }
      if At(fs.disk.stored, SlotOf(p)).now.Absent? || trash in fs.disk.garbage { return false; }
      NotReferenced(manifest.profiles, SlotOf(p));
      ok := Dispose(fs, SlotOf(p), trash);
    }

    // ----- execution copies -------------------------------------------------------------------

    /** PrepareExecution: a private, byte-exact copy of the validated object under a fresh name. */
    method PrepareExecution(id: Id) returns (errs: Failure, n: nat)
      requires Valid()
      modifies fs`disk, fs`log, fs`faults
      ensures Valid() && fs.disk == old(fs.disk).(executions := fs.disk.executions)
      ensures fs.disk.executions - {n} == old(fs.disk).executions - {n}
      ensures errs == {} ==>
        n !in old(fs.disk).executions && n in fs.disk.executions && IsCopy(manifest, id, fs.disk.executions[n])
      ensures errs == {} || errs == {NotFound} || errs == {Failed}
      ensures Extends(old(fs.log), fs.log, fs.disk.manifest.may)
      ensures old(fs.faults) <= fs.faults
      ensures fs.faults == old(fs.faults) ==> (errs == {} <==> id in Ids(manifest.profiles))
    {
      var name: nat := *;
      n := name;
      var profile;
      errs, profile := Resolve(id);
      if errs != {} { return; }
      errs := {Failed};
      if n in fs.disk.executions { fs.faults := fs.faults + 1; return; }
      var ok := CopyExecution(fs, n, Files(profile.value));
      if ok { errs := {}; }
    }

    /** The cleanup function of one copy. */
    method CleanupExecution(n: nat) returns (errs: Failure)
      requires Valid()
      modifies fs`disk, fs`log, fs`faults
      ensures Valid() && fs.disk == old(fs.disk).(executions := fs.disk.executions)
      ensures fs.disk.executions - {n} == old(fs.disk).executions - {n}
      ensures errs == {} ==> n !in fs.disk.executions
      ensures Extends(old(fs.log), fs.log, fs.disk.manifest.may)
      ensures old(fs.faults) <= fs.faults && (fs.faults == old(fs.faults) ==> errs == {})
    {
      errs := {Failed};
      var ok := fs.Try();
      if !ok { return; }
      if n in fs.disk.executions {
        ok := fs.RemoveExecution(n);
        if !ok { return; }
      }
      ok := fs.Try();  // the sync of the executions directory
      if ok { errs := {}; }
    }
  }
}
