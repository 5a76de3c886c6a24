/** internal/profiles/model.go: profiles, the manifest, and what makes them valid; and the edits
    of the manifest that internal/profiles/store.go publishes. SHA-256 is symbolic: a digest is
    the content it was taken of, so it is injective. */
module Library {
  import opened Contracts
  import opened Text

  datatype Digest = NoDigest | Sha256(content: string)

  datatype Metadata = Metadata(displayName: string, group: string, location: string, emoji: string)

  datatype Profile = Profile(
    id: Id, protocol: Protocol, metadata: Metadata, identifier: string, filename: string,
    importedAt: int, content: Digest, key: Digest)

  /** Changes of one profile's metadata; the two clear flags win over a value. */
  datatype Patch = Patch(
    displayName: Option<string>, group: Option<string>, location: Option<string>, clearLocation: bool,
    emoji: Option<string>, clearEmoji: bool)

  const EMPTY_PATCH := Patch(None, None, None, false, None, false)

  datatype Startup = Manual | Restore

  datatype Manifest = Manifest(
    version: int, revision: nat, profiles: seq<Profile>, favorites: seq<Id>, recents: seq<Id>,
    startup: Startup, desired: Id, connectedAt: int)

  const VERSION := 1
  const MAX_PROFILES := 100
  const MAX_RECENTS := 5
  const MAX_PROFILE_BYTES := 0x10_0000

  const INITIAL: Manifest := Manifest(VERSION, 0, [], [], [], Manual, "", 0)

  // ----- validity ---------------------------------------------------------------------------

  predicate Base32(s: string) {
    forall k :: 0 <= k < |s| ==> 'a' <= s[k] <= 'z' || '2' <= s[k] <= '7'
  }

  predicate IdPattern(id: Id) {
    |id| == 29 && id[..3] == "tf_" && Base32(id[3..])
  }

  predicate IdentifierPattern(s: string) {
    |s| == 14 && s[..2] == "tf" && Base32(s[2..])
  }

  predicate ValidText(s: string, minRunes: nat, maxRunes: nat, maxBytes: nat) {
    TrimSpace(s) == s && minRunes <= |s| <= maxRunes && ByteLength(s) <= maxBytes && NoControl(s)
  }

  predicate ValidMetadata(m: Metadata) {
    && ValidText(m.displayName, 1, 120, 512)
    && ValidText(m.group, 1, 64, 256)
    && (m.location != "" ==> ValidText(m.location, 1, 80, 320))
    && (m.emoji != "" ==> ValidText(m.emoji, 1, 16, 64))
  }

  predicate ValidFilename(name: string) {
    && name != "" && ByteLength(name) <= 255 && '/' !in name && '\\' !in name
    && name != "." && name != ".." && NoControl(name)
  }

  predicate ValidProfile(p: Profile) {
    && IdPattern(p.id)
    && ValidMetadata(p.metadata)
    && IdentifierPattern(p.identifier)
    && ValidFilename(p.filename)
    && p.importedAt != 0
    && p.content.Sha256?
    && (p.protocol == WireGuard <==> p.key.Sha256?)
  }

  function Ids(profiles: seq<Profile>): set<Id> {
    set k | 0 <= k < |profiles| :: profiles[k].id
  }

  function Identifiers(profiles: seq<Profile>): set<string> {
    set k | 0 <= k < |profiles| :: profiles[k].identifier
  }

  function Contents(profiles: seq<Profile>): set<Digest> {
    set k | 0 <= k < |profiles| :: profiles[k].content
  }

  predicate Distinct<T(==)>(s: seq<T>) {
    forall i, j :: 0 <= i < j < |s| ==> s[i] != s[j]
  }

  /** Two profiles of a library share neither ID, nor runtime identifier, nor content. */
  predicate Apart(a: Profile, b: Profile) {
    a.id != b.id && a.identifier != b.identifier && a.content != b.content
  }

  predicate ValidProfiles(profiles: seq<Profile>) {
    && (forall k :: 0 <= k < |profiles| ==> ValidProfile(profiles[k]))
    && (forall i, j :: 0 <= i < j < |profiles| ==> Apart(profiles[i], profiles[j]))
  }

  predicate ApartFrom(p: Profile, profiles: seq<Profile>) {
    forall k :: 0 <= k < |profiles| ==> Apart(profiles[k], p)
  }

  lemma ValidSnoc(profiles: seq<Profile>, p: Profile)
    ensures ValidProfiles(profiles + [p]) <==> ValidProfiles(profiles) && ValidProfile(p) && ApartFrom(p, profiles)
  {
    var all := profiles + [p];
    if ValidProfiles(all) {
      assert all[|profiles|] == p;
      assert forall k :: 0 <= k < |profiles| ==> all[k] == profiles[k];
      forall k | 0 <= k < |profiles| ensures Apart(profiles[k], p) { assert Apart(all[k], all[|profiles|]); }
      forall i, j | 0 <= i < j < |profiles| ensures Apart(profiles[i], profiles[j]) { assert Apart(all[i], all[j]); }
    }
  }

  lemma ValidPrefix(profiles: seq<Profile>, k: nat)
    requires k <= |profiles|
    ensures ValidProfiles(profiles) ==> ValidProfiles(profiles[..k])
  {
  }

  lemma ValidSuffix(a: seq<Profile>, b: seq<Profile>)
    requires ValidProfiles(a + b)
    ensures ValidProfiles(b)
  {
    assert (a + b)[|a|..] == b;
    assert forall k :: 0 <= k < |b| ==> b[k] == (a + b)[|a| + k];
  }

  lemma OneProfile(profiles: seq<Profile>, p: Profile, q: Profile)
    requires ValidProfiles(profiles) && p in profiles && q in profiles && p.id == q.id
    ensures p == q
  {
    var i :| 0 <= i < |profiles| && profiles[i] == p;
    var j :| 0 <= j < |profiles| && profiles[j] == q;
    assert i < j ==> Apart(profiles[i], profiles[j]);
    assert j < i ==> Apart(profiles[j], profiles[i]);
  }

  predicate ValidList(ids: seq<Id>, limit: nat, known: set<Id>) {
    |ids| <= limit && Distinct(ids) && forall k :: 0 <= k < |ids| ==> ids[k] in known
  }

  predicate ValidManifest(m: Manifest) {
    && m.version == VERSION
    && |m.profiles| <= MAX_PROFILES
    && 0 <= m.connectedAt
    && ValidProfiles(m.profiles)
    && ValidList(m.favorites, MAX_PROFILES, Ids(m.profiles))
    && ValidList(m.recents, MAX_RECENTS, Ids(m.profiles))
    && (m.desired != "" ==> m.desired in Ids(m.profiles))
  }

  method ValidateList(values: seq<Id>, limit: nat, ids: set<Id>) returns (ok: bool)
    ensures ok <==> ValidList(values, limit, ids)
  {
    if |values| > limit { return false; }
    var seen: set<Id> := {};
    for k := 0 to |values|
      invariant forall id :: id in seen <==> exists j :: 0 <= j < k && values[j] == id
      invariant Distinct(values[..k]) && forall j :: 0 <= j < k ==> values[j] in ids
    {
      if values[k] !in ids { return false; }
      if values[k] in seen {
        var j :| 0 <= j < k && values[j] == values[k];
        return false;
      }
      seen := seen + {values[k]};
      assert values[..k + 1] == values[..k] + [values[k]];
    }
    assert values[..|values|] == values;
    ok := true;
  }

  /** The loop of ValidateManifest over the profiles, with its three maps of what was seen. */
  method ValidateProfiles(profiles: seq<Profile>) returns (ok: bool, ids: set<Id>)
    ensures ok <==> ValidProfiles(profiles)
    ensures ok ==> ids == Ids(profiles)
  {
    ids := {};
    var identifiers: set<string>, contents: set<Digest> := {}, {};
    for k := 0 to |profiles|
      invariant ids == Ids(profiles[..k]) && identifiers == Identifiers(profiles[..k])
      invariant contents == Contents(profiles[..k])
      invariant ValidProfiles(profiles[..k])
    {
      var p := profiles[k];
      assert profiles[..k + 1] == profiles[..k] + [p];
      ValidSnoc(profiles[..k], p);
      Clashes(profiles[..k], p);
      Collect(profiles[..k], p);
      if !ValidProfile(p) || p.id in ids || p.identifier in identifiers || p.content in contents {
        ValidPrefix(profiles, k + 1);
        return false, ids;
      }
      ids, identifiers, contents := ids + {p.id}, identifiers + {p.identifier}, contents + {p.content};
    }
    assert profiles[..|profiles|] == profiles;
    ok := true;
  }

  lemma Collect(profiles: seq<Profile>, p: Profile)
    ensures Ids(profiles + [p]) == Ids(profiles) + {p.id}
    ensures Identifiers(profiles + [p]) == Identifiers(profiles) + {p.identifier}
    ensures Contents(profiles + [p]) == Contents(profiles) + {p.content}
  {
    var all := profiles + [p];
    assert all[|profiles|] == p;
    assert forall k :: 0 <= k < |profiles| ==> all[k] == profiles[k];
  }

  lemma Clashes(profiles: seq<Profile>, p: Profile)
    ensures ApartFrom(p, profiles) <==>
      p.id !in Ids(profiles) && p.identifier !in Identifiers(profiles) && p.content !in Contents(profiles)
  {
  }

  /** ValidateManifest accepts exactly the valid manifests. */
  method ValidateManifest(m: Manifest) returns (ok: bool)
    ensures ok <==> ValidManifest(m)
  {
    if m.version != VERSION || |m.profiles| > MAX_PROFILES || m.connectedAt < 0 { return false; }
    var ids;
    ok, ids := ValidateProfiles(m.profiles);
    if !ok { return; }
    var favorites := ValidateList(m.favorites, MAX_PROFILES, ids);
    var recents := ValidateList(m.recents, MAX_RECENTS, ids);
    ok := favorites && recents && (m.desired != "" ==> m.desired in ids);
  }

  // ----- edits ------------------------------------------------------------------------------

  /** Manifest.Profile: the entry of an ID. */
  method Lookup(profiles: seq<Profile>, id: Id) returns (found: Option<Profile>)
    ensures found.None? <==> id !in Ids(profiles)
    ensures found.Some? ==> found.value in profiles && found.value.id == id
  {
    for k := 0 to |profiles|
      invariant forall j :: 0 <= j < k ==> profiles[j].id != id
    {
      if profiles[k].id == id { return Some(profiles[k]); }
    }
    found := None;
  }

  function WithoutId(ids: seq<Id>, id: Id): seq<Id> {
    if ids == [] then []
    else WithoutId(ids[..|ids| - 1], id) + if ids[|ids| - 1] == id then [] else [ids[|ids| - 1]]
  }

  function WithoutProfile(profiles: seq<Profile>, id: Id): seq<Profile> {
    if profiles == [] then []
    else WithoutProfile(profiles[..|profiles| - 1], id)
         + if profiles[|profiles| - 1].id == id then [] else [profiles[|profiles| - 1]]
  }

  lemma {:induction false} WithoutIdExact(ids: seq<Id>, id: Id)
    ensures forall x :: x in WithoutId(ids, id) <==> x in ids && x != id
    ensures |WithoutId(ids, id)| <= |ids|
    ensures Distinct(ids) ==> Distinct(WithoutId(ids, id))
  {
    if ids != [] {
      var init := ids[..|ids| - 1];
      WithoutIdExact(init, id);
      assert ids == init + [ids[|ids| - 1]];
      if Distinct(ids) {
        assert Distinct(init);
        assert ids[|ids| - 1] !in init;
      }
    }
  }

  lemma {:induction false} WithoutProfileExact(profiles: seq<Profile>, id: Id)
    ensures forall p :: p in WithoutProfile(profiles, id) <==> p in profiles && p.id != id
    ensures |WithoutProfile(profiles, id)| <= |profiles|
  {
    if profiles != [] {
      WithoutProfileExact(profiles[..|profiles| - 1], id);
      assert profiles == profiles[..|profiles| - 1] + [profiles[|profiles| - 1]];
    }
  }

  lemma {:induction false} WithoutProfileValid(profiles: seq<Profile>, id: Id)
    requires ValidProfiles(profiles)
    ensures ValidProfiles(WithoutProfile(profiles, id))
  {
    if profiles != [] {
      var init, last := profiles[..|profiles| - 1], profiles[|profiles| - 1];
      assert profiles == init + [last];
      ValidSnoc(init, last);
      WithoutProfileValid(init, id);
      WithoutProfileExact(init, id);
      ValidSnoc(WithoutProfile(init, id), last);
      ApartSubset(last, init, WithoutProfile(init, id));
    }
  }

  lemma ApartSubset(p: Profile, all: seq<Profile>, some: seq<Profile>)
    requires ApartFrom(p, all) && forall q :: q in some ==> q in all
    ensures ApartFrom(p, some)
  {
    forall k | 0 <= k < |some| ensures Apart(some[k], p) { assert some[k] in some; }
  }

  /** The values in their order, without the one that equals the given one. */
  predicate Dropped(values: seq<Id>, value: Id, others: seq<Id>) {
    if value !in values then others == values
    else exists k :: 0 <= k < |values| && values[k] == value && others == values[..k] + values[k + 1..]
  }

  lemma WithoutIdDropped(ids: seq<Id>, id: Id)
    requires Distinct(ids)
    ensures Dropped(ids, id, WithoutId(ids, id))
  {
    if id in ids {
      var k :| 0 <= k < |ids| && ids[k] == id;
      WithoutIdAt(ids, k);
    } else {
      WithoutAbsent(ids, id);
    }
  }

  lemma {:induction false} WithoutIdAt(ids: seq<Id>, k: nat)
    requires k < |ids| && forall j :: 0 <= j < |ids| && j != k ==> ids[j] != ids[k]
    ensures WithoutId(ids, ids[k]) == ids[..k] + ids[k + 1..]
    decreases |ids|
  {
    var n := |ids| - 1;
    var init := ids[..n];
    assert ids == init + [ids[n]];
    if k == n {
      WithoutAbsent(init, ids[k]);
      assert ids[..k] + ids[k + 1..] == init;
    } else {
      WithoutIdAt(init, k);
      assert ids[..k] + ids[k + 1..] == init[..k] + init[k + 1..] + [ids[n]];
    }
  }

  lemma {:induction false} WithoutAbsent(ids: seq<Id>, id: Id)
    requires id !in ids
    ensures WithoutId(ids, id) == ids
  {
    if ids != [] {
      assert ids[|ids| - 1] in ids && ids == ids[..|ids| - 1] + [ids[|ids| - 1]];
      WithoutAbsent(ids[..|ids| - 1], id);
    }
  }

  /** Of a list of profiles with one of this ID, the others in their order. */
  lemma {:induction false} WithoutProfileDropped(profiles: seq<Profile>, k: nat)
    requires k < |profiles| && forall j :: 0 <= j < |profiles| && j != k ==> profiles[j].id != profiles[k].id
    ensures WithoutProfile(profiles, profiles[k].id) == profiles[..k] + profiles[k + 1..]
    decreases |profiles|
  {
    var n := |profiles| - 1;
    var init := profiles[..n];
    assert profiles == init + [profiles[n]];
    if k == n {
      WithoutAbsentProfile(init, profiles[k].id);
      assert profiles[..k] + profiles[k + 1..] == init;
    } else {
      WithoutProfileDropped(init, k);
      assert profiles[..k] + profiles[k + 1..] == init[..k] + init[k + 1..] + [profiles[n]];
    }
  }

  lemma {:induction false} WithoutAbsentProfile(profiles: seq<Profile>, id: Id)
    requires forall j :: 0 <= j < |profiles| ==> profiles[j].id != id
    ensures WithoutProfile(profiles, id) == profiles
  {
    if profiles != [] {
      assert profiles == profiles[..|profiles| - 1] + [profiles[|profiles| - 1]];
      WithoutAbsentProfile(profiles[..|profiles| - 1], id);
    }
  }

  method RemoveId(values: seq<Id>, id: Id) returns (result: seq<Id>)
    ensures result == WithoutId(values, id)
  {
    result := [];
    for k := 0 to |values|
      invariant result == WithoutId(values[..k], id)
    {
      assert values[..k + 1][..k] == values[..k];
      if values[k] != id { result := result + [values[k]]; }
    }
    assert values[..|values|] == values;
  }

  method RemoveProfile(values: seq<Profile>, id: Id) returns (result: seq<Profile>)
    ensures result == WithoutProfile(values, id)
  {
    result := [];
    for k := 0 to |values|
      invariant result == WithoutProfile(values[..k], id)
    {
      assert values[..k + 1][..k] == values[..k];
      if values[k].id != id { result := result + [values[k]]; }
    }
    assert values[..|values|] == values;
  }

  /** The value of prependUnique for every limit: cut at the limit when that is at least 2. */
  function Prepended(values: seq<Id>, value: Id, limit: nat): seq<Id> {
    var all := [value] + WithoutId(values, value);
    if limit >= 2 && |all| > limit then all[..limit]
    else if limit == 1 && values != [] && values[0] == value then [value]
    else all
  }

  method PrependUnique(values: seq<Id>, value: Id, limit: nat) returns (result: seq<Id>)
    ensures result == Prepended(values, value, limit)
  {
    result := [value];
    for k := 0 to |values|
      invariant result == [value] + WithoutId(values[..k], value)
      invariant limit >= 2 ==> |result| < limit
      invariant limit == 1 && k > 0 ==> values[0] != value
      invariant k > 0 && values[0] != value ==> |result| >= 2
    {
      WithoutIdSnoc(values, value, k);
      if values[k] != value { result := result + [values[k]]; }
      if |result| == limit {
        StopAt(values, value, limit, k);
        return;
      }
    }
    assert values[..|values|] == values;
  }

  /** Where the loop stops early, what it has is the whole value. */
  lemma StopAt(values: seq<Id>, value: Id, limit: nat, k: nat)
    requires k < |values| && 1 + |WithoutId(values[..k + 1], value)| == limit
    requires limit == 1 ==> k == 0
    ensures Prepended(values, value, limit) == [value] + WithoutId(values[..k + 1], value)
  {
    CutAt(values, value, k + 1);
    if limit == 1 {
      WithoutIdSnoc(values, value, 0);
    }
  }

  lemma WithoutIdSnoc(values: seq<Id>, value: Id, k: nat)
    requires k < |values|
    ensures WithoutId(values[..k + 1], value) ==
            WithoutId(values[..k], value) + if values[k] == value then [] else [values[k]]
  {
    assert values[..k + 1][..k] == values[..k];
  }

  lemma {:induction false} CutAt(values: seq<Id>, value: Id, k: nat)
    requires k <= |values|
    ensures WithoutId(values[..k], value) <= WithoutId(values, value)
    decreases |values|
  {
    if k < |values| {
      var init := values[..|values| - 1];
      CutAt(init, value, k);
      assert init[..k] == values[..k];
    } else {
      assert values[..k] == values;
    }
  }

  /** prependUnique respects its limit exactly when the limit is at least 2, or is 1 and the list
      was empty or already began with the value; it puts the value first and keeps a list free
      of duplicates. */
  lemma PrependedExact(values: seq<Id>, value: Id, limit: nat)
    ensures |Prepended(values, value, limit)| <= limit <==>
            limit >= 2 || (limit == 1 && (values == [] || values[0] == value))
    ensures Prepended(values, value, limit)[0] == value
    ensures forall x :: x in Prepended(values, value, limit) ==> x == value || x in values
    ensures Distinct(values) ==> Distinct(Prepended(values, value, limit))
  {
    WithoutIdExact(values, value);
    if limit == 1 && values != [] && values[0] != value {
      assert values[0] in WithoutId(values, value);
    }
    var all := [value] + WithoutId(values, value);
    if Distinct(values) {
      assert forall k :: 1 <= k < |all| ==> all[k] in WithoutId(values, value);
      assert Distinct(all);
    }
  }

  function WithConnection(m: Manifest, desired: Id, connectedAt: int, addRecent: bool): Manifest {
    m.(revision := m.revision + 1, desired := desired, connectedAt := connectedAt,
       recents := if addRecent && desired != "" then Prepended(m.recents, desired, MAX_RECENTS) else m.recents)
  }

  /** A connection edit is admissible exactly when it names no profile or a known one, and a
      time that is not negative: adding to the recents never makes the manifest invalid. */
  lemma ConnectionValid(m: Manifest, desired: Id, connectedAt: int, addRecent: bool)
    requires ValidManifest(m)
    ensures ValidManifest(WithConnection(m, desired, connectedAt, addRecent)) <==>
            (desired == "" || desired in Ids(m.profiles)) && connectedAt >= 0
  {
    PrependedExact(m.recents, desired, MAX_RECENTS);
    var recents := Prepended(m.recents, desired, MAX_RECENTS);
    var c := WithConnection(m, desired, connectedAt, addRecent);
    if desired in Ids(m.profiles) {
      forall k | 0 <= k < |recents| ensures recents[k] in Ids(m.profiles) { assert recents[k] in recents; }
    }
  }

  /** A value moved to the front of a list: it comes first, then the others in their order; only where
      that exceeds the limit the last is dropped. */
  ghost predicate MovedToFront(values: seq<Id>, value: Id, limit: nat, result: seq<Id>) {
    exists others :: Dropped(values, value, others)
                     && (if |others| < limit then result == [value] + others
                         else limit > 0 && result == [value] + others[..limit - 1])
  }

  /** What a connection changes: the profile, the time and the revision; the recents only where the
      profile is to be added to them; and nothing else. */
  ghost predicate ConnectionEdit(before: Manifest, after: Manifest, desired: Id, connectedAt: int, addRecent: bool) {
    && after.version == before.version && after.revision == before.revision + 1
    && after.profiles == before.profiles && after.favorites == before.favorites && after.startup == before.startup
    && after.desired == desired && after.connectedAt == connectedAt
    && (if addRecent && desired != "" then MovedToFront(before.recents, desired, MAX_RECENTS, after.recents)
        else after.recents == before.recents)
  }

  lemma ConnectionExact(m: Manifest, desired: Id, connectedAt: int, addRecent: bool)
    requires ValidManifest(m)
    ensures ConnectionEdit(m, WithConnection(m, desired, connectedAt, addRecent), desired, connectedAt, addRecent)
  {
    PrependedMoves(m.recents, desired, MAX_RECENTS);
  }

  lemma PrependedMoves(values: seq<Id>, value: Id, limit: nat)
    requires Distinct(values) && limit >= 2
    ensures MovedToFront(values, value, limit, Prepended(values, value, limit))
  {
    WithoutIdDropped(values, value);
    var others := WithoutId(values, value);
    assert |others| >= limit ==> ([value] + others)[..limit] == [value] + others[..limit - 1];
  }

  function Removed(m: Manifest, id: Id): Manifest {
    m.(revision := m.revision + 1,
       profiles := WithoutProfile(m.profiles, id),
       favorites := WithoutId(m.favorites, id),
       recents := WithoutId(m.recents, id),
       desired := if m.desired == id then "" else m.desired,
       connectedAt := if m.desired == id then 0 else m.connectedAt)
  }

  /** Removing a profile leaves a valid manifest valid, with exactly the other profiles. */
  lemma RemovedValid(m: Manifest, id: Id)
    requires ValidManifest(m)
    ensures ValidManifest(Removed(m, id))
    ensures Ids(Removed(m, id).profiles) == Ids(m.profiles) - {id}
  {
    WithoutProfileExact(m.profiles, id);
    WithoutProfileValid(m.profiles, id);
    RemovedIds(m.profiles, id);
    ListKept(m.favorites, MAX_PROFILES, Ids(m.profiles), id);
    ListKept(m.recents, MAX_RECENTS, Ids(m.profiles), id);
  }

  lemma ListKept(ids: seq<Id>, limit: nat, known: set<Id>, id: Id)
    requires ValidList(ids, limit, known)
    ensures ValidList(WithoutId(ids, id), limit, known - {id})
  {
    WithoutIdExact(ids, id);
    var kept := WithoutId(ids, id);
    forall k | 0 <= k < |kept| ensures kept[k] in known - {id} { assert kept[k] in kept; }
  }

  lemma RemovedIds(profiles: seq<Profile>, id: Id)
    ensures Ids(WithoutProfile(profiles, id)) == Ids(profiles) - {id}
  {
    WithoutProfileExact(profiles, id);
    var rest := WithoutProfile(profiles, id);
    forall x | x in Ids(profiles) - {id} ensures x in Ids(rest) {
      var k :| 0 <= k < |profiles| && profiles[k].id == x;
      assert profiles[k] in rest;
    }
    forall x | x in Ids(rest) ensures x in Ids(profiles) - {id} {
      var k :| 0 <= k < |rest| && rest[k].id == x;
      assert rest[k] in profiles;
    }
  }

  /** What a removal changes: the profile is gone, the others and both lists keep their order without
      it, and a connection is cleared exactly when it was to that profile. */
  ghost predicate RemovalEdit(before: Manifest, after: Manifest, id: Id) {
    && after.version == before.version && after.revision == before.revision + 1 && after.startup == before.startup
    && (exists k :: 0 <= k < |before.profiles| && before.profiles[k].id == id
                    && after.profiles == before.profiles[..k] + before.profiles[k + 1..])
    && Dropped(before.favorites, id, after.favorites) && Dropped(before.recents, id, after.recents)
    && (if before.desired == id then after.desired == "" && after.connectedAt == 0
        else after.desired == before.desired && after.connectedAt == before.connectedAt)
  }

  lemma RemovedExact(m: Manifest, id: Id)
    requires ValidManifest(m) && id in Ids(m.profiles)
    ensures RemovalEdit(m, Removed(m, id), id)
  {
    var k :| 0 <= k < |m.profiles| && m.profiles[k].id == id;
    OtherIds(m.profiles, k);
    RemovedParts(m, k);
  }

  lemma OtherIds(profiles: seq<Profile>, k: nat)
    requires ValidProfiles(profiles) && k < |profiles|
    ensures forall j :: 0 <= j < |profiles| && j != k ==> profiles[j].id != profiles[k].id
  {
    forall j | 0 <= j < |profiles| && j != k ensures profiles[j].id != profiles[k].id {
      if j < k { assert Apart(profiles[j], profiles[k]); } else { assert Apart(profiles[k], profiles[j]); }
    }
  }

  lemma RemovedParts(m: Manifest, k: nat)
    requires k < |m.profiles| && forall j :: 0 <= j < |m.profiles| && j != k ==> m.profiles[j].id != m.profiles[k].id
    requires Distinct(m.favorites) && Distinct(m.recents)
    ensures RemovalEdit(m, Removed(m, m.profiles[k].id), m.profiles[k].id)
  {
    var id := m.profiles[k].id;
    WithoutProfileDropped(m.profiles, k);
    WithoutIdDropped(m.favorites, id);
    WithoutIdDropped(m.recents, id);
  }

  function Patched(m: Metadata, patch: Patch): Metadata {
    Metadata(
      if patch.displayName.Some? then patch.displayName.value else m.displayName,
      if patch.group.Some? then patch.group.value else m.group,
      if patch.clearLocation then "" else if patch.location.Some? then patch.location.value else m.location,
      if patch.clearEmoji then "" else if patch.emoji.Some? then patch.emoji.value else m.emoji)
  }

  /** A text that may be given anew. */
  predicate TextEdit(given: Option<string>, before: string, after: string) {
    match given
    case None => after == before
    case Some(value) => after == value
  }

  /** A text that may be given anew or cleared; clearing wins. */
  predicate ClearableEdit(given: Option<string>, clear: bool, before: string, after: string) {
    if clear then after == "" else TextEdit(given, before, after)
  }

  /** What a patch changes of a manifest: of the profile with this ID the fields that the patch
      mentions, and the revision; nothing else. */
  ghost predicate MetadataEdit(before: Manifest, after: Manifest, id: Id, patch: Patch) {
    && after == before.(revision := before.revision + 1, profiles := after.profiles)
    && |after.profiles| == |before.profiles|
    && forall k :: 0 <= k < |before.profiles| ==> ProfileEdit(before.profiles[k], after.profiles[k], id, patch)
  }

  ghost predicate ProfileEdit(before: Profile, after: Profile, id: Id, patch: Patch) {
    if before.id != id then after == before
    else
      && after == before.(metadata := after.metadata)
      && TextEdit(patch.displayName, before.metadata.displayName, after.metadata.displayName)
      && TextEdit(patch.group, before.metadata.group, after.metadata.group)
      && ClearableEdit(patch.location, patch.clearLocation, before.metadata.location, after.metadata.location)
      && ClearableEdit(patch.emoji, patch.clearEmoji, before.metadata.emoji, after.metadata.emoji)
  }

  function WithMetadata(m: Manifest, k: nat, metadata: Metadata): Manifest
    requires k < |m.profiles|
  {
    m.(revision := m.revision + 1, profiles := m.profiles[k := m.profiles[k].(metadata := metadata)])
  }

  /** A metadata edit is admissible exactly when the metadata is: it touches no identity. */
  lemma MetadataValid(m: Manifest, k: nat, metadata: Metadata)
    requires ValidManifest(m) && k < |m.profiles|
    ensures ValidManifest(WithMetadata(m, k, metadata)) <==> ValidMetadata(metadata)
    ensures Ids(WithMetadata(m, k, metadata).profiles) == Ids(m.profiles)
  {
    EditedProfiles(m.profiles, k, metadata);
  }

  lemma MetadataExact(m: Manifest, k: nat, patch: Patch)
    requires ValidManifest(m) && k < |m.profiles|
    ensures MetadataEdit(m, WithMetadata(m, k, Patched(m.profiles[k].metadata, patch)), m.profiles[k].id, patch)
  {
    OtherIds(m.profiles, k);
    PatchedParts(m, k, patch);
  }

  lemma PatchedParts(m: Manifest, k: nat, patch: Patch)
    requires k < |m.profiles| && forall j :: 0 <= j < |m.profiles| && j != k ==> m.profiles[j].id != m.profiles[k].id
    ensures MetadataEdit(m, WithMetadata(m, k, Patched(m.profiles[k].metadata, patch)), m.profiles[k].id, patch)
  {
  }

  lemma EditedProfiles(profiles: seq<Profile>, k: nat, metadata: Metadata)
    requires ValidProfiles(profiles) && k < |profiles|
    ensures var edited := profiles[k := profiles[k].(metadata := metadata)];
      Ids(edited) == Ids(profiles) && (ValidProfiles(edited) <==> ValidMetadata(metadata))
  {
    var edited := profiles[k := profiles[k].(metadata := metadata)];
    forall j | 0 <= j < |profiles|
      ensures edited[j].id == profiles[j].id && (j != k ==> ValidProfile(edited[j]))
      ensures edited[j].identifier == profiles[j].identifier && edited[j].content == profiles[j].content
    {
    }
    assert ValidProfile(edited[k]) <==> ValidMetadata(metadata) by { assert ValidProfile(profiles[k]); }
    forall i, j | 0 <= i < j < |profiles|
      ensures Apart(edited[i], edited[j])
    {
      assert Apart(profiles[i], profiles[j]);
    }
    SameIds(profiles, edited);
  }

  lemma SameIds(a: seq<Profile>, b: seq<Profile>)
    requires |a| == |b| && forall j :: 0 <= j < |a| ==> a[j].id == b[j].id
    ensures Ids(a) == Ids(b)
  {
  }

  /** Publishing adds profiles at the end. */
  function WithProfiles(m: Manifest, added: seq<Profile>): Manifest {
    m.(revision := m.revision + 1, profiles := m.profiles + added)
  }

  lemma AddedIds(a: seq<Profile>, b: seq<Profile>)
    ensures Ids(a + b) == Ids(a) + Ids(b)
  {
    forall x | x in Ids(a) + Ids(b) ensures x in Ids(a + b) {
      if x in Ids(a) {
        var k :| 0 <= k < |a| && a[k].id == x;
        assert (a + b)[k].id == x;
      } else {
        var k :| 0 <= k < |b| && b[k].id == x;
        assert (a + b)[|a| + k].id == x;
      }
    }
  }

  /** A publication is admissible exactly when the whole list of profiles is valid and fits. */
  lemma PublicationValid(m: Manifest, added: seq<Profile>)
    requires ValidManifest(m)
    ensures ValidManifest(WithProfiles(m, added)) <==>
            ValidProfiles(m.profiles + added) && |m.profiles| + |added| <= MAX_PROFILES
  {
    AddedIds(m.profiles, added);
  }
}
