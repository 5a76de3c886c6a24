/** The part of the manifest that the manager reads, and how the store's edits look to it: what the
    manager assumes of its record is what internal/profiles/store.go does to the manifest. */
module Records {
  import opened Contracts
  import opened Environment
  import opened Library
  import opened ProfileStore

  function RecordOf(m: Manifest): Record {
    Record(Ids(m.profiles), m.desired, m.connectedAt, m.startup == Restore)
  }

  lemma ValidRecord(m: Manifest)
    requires ValidManifest(m)
    ensures Acceptable(RecordOf(m))
  {
    forall k | 0 <= k < |m.profiles| ensures m.profiles[k].id != "" { assert ValidProfile(m.profiles[k]); }
  }

  /** A removal is what the manager takes it for: only this profile goes, and a connection with it. */
  lemma RemovalRecord(before: Manifest, after: Manifest, id: Id)
    requires ValidManifest(before) && RemovalEdit(before, after, id)
    ensures RecordOf(after) == Without(RecordOf(before), id)
  {
    var k :| 0 <= k < |before.profiles| && before.profiles[k].id == id
             && after.profiles == before.profiles[..k] + before.profiles[k + 1..];
    OtherIds(before.profiles, k);
    RemainingIds(before.profiles, after.profiles, k);
  }

  lemma RemainingIds(before: seq<Profile>, after: seq<Profile>, k: nat)
    requires k < |before| && after == before[..k] + before[k + 1..]
    requires forall j :: 0 <= j < |before| && j != k ==> before[j].id != before[k].id
    ensures Ids(after) == Ids(before) - {before[k].id}
  {
    forall x | x in Ids(before) - {before[k].id} ensures x in Ids(after) {
      var j :| 0 <= j < |before| && before[j].id == x;
      assert after[if j < k then j else j - 1] == before[j];
    }
    forall x | x in Ids(after) ensures x in Ids(before) - {before[k].id} {
      var j :| 0 <= j < |after| && after[j].id == x;
      assert after[j] == before[if j < k then j else j + 1];
    }
  }

  /** A connection changes the desired profile and the time, and nothing else that the manager reads. */
  lemma ConnectionRecord(before: Manifest, after: Manifest, desired: Id, connectedAt: int, addRecent: bool)
    requires ConnectionEdit(before, after, desired, connectedAt, addRecent)
    ensures RecordOf(after) == RecordOf(before).(desired := desired, connectedAt := connectedAt)
  {
  }

  /** An edit of metadata changes nothing that the manager reads. */
  lemma MetadataRecord(before: Manifest, after: Manifest, id: Id, patch: Patch)
    requires MetadataEdit(before, after, id, patch)
    ensures RecordOf(after) == RecordOf(before)
  {
    forall j | 0 <= j < |before.profiles| ensures after.profiles[j].id == before.profiles[j].id {
      assert ProfileEdit(before.profiles[j], after.profiles[j], id, patch);
    }
    SameIds(before.profiles, after.profiles);
  }

  /** A publication adds its profiles, and changes nothing else that the manager reads. */
  lemma PublicationRecord(before: Manifest, after: Manifest, objects: seq<NewObject>)
    requires PublicationEdit(before, after, objects)
    ensures var added := Ids(ProfilesOf(objects));
      RecordOf(after) == RecordOf(before).(profiles := Ids(before.profiles) + added)
  {
    if objects != [] {
      assert after.profiles == before.profiles + ProfilesOf(objects);
      AddedIds(before.profiles, ProfilesOf(objects));
    }
  }
}
