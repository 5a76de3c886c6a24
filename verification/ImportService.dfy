/** The import service (internal/profiles/import.go): Inspect plans, Commit derives everything again,
    checks the receipt and either publishes once or recognises a replay. The HMAC is a function
    under the service's key; that nobody else can compute it is an assumption on receipts. */
module ImportService {
  import opened Contracts
  import opened Text
  import opened Library
  import opened Disk
  import opened ProfileStore
  import opened ImportPlan
  import P = Policies
  import R = Receipt

  const HOUR := 3600
  const NANOS := 1_000_000_000

  // ----- planning ----------------------------------------------------------------------------

  /** What Inspect remembers of a content. */
  datatype Entry = Entry(id: Id, protocol: Protocol, identifier: string, key: Digest)

  function EntryOf(p: Profile): Entry {
    Entry(p.id, p.protocol, p.identifier, p.key)
  }

  /** The two maps of Inspect after some records. */
  ghost predicate Known(m: Manifest, records: seq<Record>, byDigest: map<Digest, Entry>, identifiers: set<string>) {
    && (forall d :: d in byDigest <==>
          d in Contents(m.profiles) || exists j :: 0 <= j < |records| && records[j].digest == d)
    && (forall i :: 0 <= i < |m.profiles| ==>
          m.profiles[i].content in byDigest && byDigest[m.profiles[i].content] == EntryOf(m.profiles[i]))
    && (forall j :: 0 <= j < |records| ==>
          records[j].digest in byDigest && Some(byDigest[records[j].digest].protocol) == records[j].protocol
          && byDigest[records[j].digest].id == records[j].id
          && byDigest[records[j].digest].identifier == records[j].identifier
          && byDigest[records[j].digest].key == records[j].key)
    && (forall x :: x in identifiers <==>
          x in Identifiers(m.profiles) || exists j :: 0 <= j < |records| && records[j].identifier == x)
  }

  ghost predicate Indexed(profiles: seq<Profile>, k: nat, byDigest: map<Digest, Entry>, identifiers: set<string>) {
    && k <= |profiles|
    && byDigest.Keys == Contents(profiles[..k]) && identifiers == Identifiers(profiles[..k])
    && forall i :: 0 <= i < k ==>
         profiles[i].content in byDigest && byDigest[profiles[i].content] == EntryOf(profiles[i])
  }

  lemma IndexStep(profiles: seq<Profile>, k: nat, byDigest: map<Digest, Entry>, identifiers: set<string>)
    requires ValidProfiles(profiles) && k < |profiles| && Indexed(profiles, k, byDigest, identifiers)
    ensures Indexed(profiles, k + 1, byDigest[profiles[k].content := EntryOf(profiles[k])],
                    identifiers + {profiles[k].identifier})
  {
    LaterContents(profiles, k);
    IndexNext(profiles, k, byDigest, identifiers);
  }

  lemma IndexNext(profiles: seq<Profile>, k: nat, byDigest: map<Digest, Entry>, identifiers: set<string>)
    requires k < |profiles| && Indexed(profiles, k, byDigest, identifiers)
    requires forall i :: 0 <= i < k ==> profiles[i].content != profiles[k].content
    ensures Indexed(profiles, k + 1, byDigest[profiles[k].content := EntryOf(profiles[k])],
                    identifiers + {profiles[k].identifier})
  {
    assert profiles[..k + 1] == profiles[..k] + [profiles[k]];
    Collect(profiles[..k], profiles[k]);
  }

  lemma LaterContents(profiles: seq<Profile>, k: nat)
    requires ValidProfiles(profiles) && k < |profiles|
    ensures forall i :: 0 <= i < k ==> profiles[i].content != profiles[k].content
  {
    forall i | 0 <= i < k ensures profiles[i].content != profiles[k].content { assert Apart(profiles[i], profiles[k]); }
  }

  /** The two maps over the library. */
  method Index(profiles: seq<Profile>) returns (byDigest: map<Digest, Entry>, identifiers: set<string>)
    requires ValidProfiles(profiles)
    ensures Indexed(profiles, |profiles|, byDigest, identifiers)
  {
    byDigest, identifiers := map[], {};
    for k := 0 to |profiles|
      invariant Indexed(profiles, k, byDigest, identifiers)
    {
      IndexStep(profiles, k, byDigest, identifiers);
      byDigest := byDigest[profiles[k].content := EntryOf(profiles[k])];
      identifiers := identifiers + {profiles[k].identifier};
    }
  }

  lemma IndexKnown(m: Manifest, byDigest: map<Digest, Entry>, identifiers: set<string>)
    requires Indexed(m.profiles, |m.profiles|, byDigest, identifiers)
    ensures Known(m, [], byDigest, identifiers)
  {
    assert m.profiles[..|m.profiles|] == m.profiles;
  }

  /** A file that inspection accepts. */
  predicate AcceptableFile(s: Setting, file: ImportFile) {
    && ValidFilename(file.name)
    && var protocol := s.detect(file);
    && protocol.Some?
    && s.policy(protocol.value, file.bytes).Some?
    && (protocol.value == WireGuard ==> s.compatible(file.bytes))
  }

  /** The part of a record that is found in the file alone. */
  predicate Examined(s: Setting, file: ImportFile, ordinal: nat, r: Record) {
    && AcceptableFile(s, file)
    && r.ordinal == ordinal && r.issues == 0 && r.override == file.override
    && r.protocol == s.detect(file) && r.digest == Sha256(file.bytes)
    && s.policy(r.protocol.value, file.bytes) == Some(r.key)
  }

  /** The record repeats what is known of its content. */
  function Repeated(r: Record, e: Entry): Record {
    r.(id := e.id, protocol := Some(e.protocol), identifier := e.identifier, key := e.key,
       disposition := AlreadyImported)
  }

  function Fresh(r: Record, id: Id, identifier: string): Record {
    r.(id := id, identifier := identifier, disposition := New)
  }

  lemma PlanPrefix(m: Manifest, records: seq<Record>, more: seq<Record>, k: nat)
    requires k < |records| && records <= more
    ensures Plan(m, more, k) <==> Plan(m, records, k)
  {
    assert forall j :: 0 <= j <= k ==> more[j] == records[j];
  }

  /** Two planned records of new contents share all of digest, ID and identifier, or none. */
  lemma PairPlan(m: Manifest, records: seq<Record>, i: nat, j: nat)
    requires i < |records| && j < |records| && Plan(m, records, i) && Plan(m, records, j)
    requires records[i].digest !in Contents(m.profiles) && records[j].digest !in Contents(m.profiles)
    ensures records[i].digest == records[j].digest <==> records[i].id == records[j].id
    ensures records[i].digest == records[j].digest <==> records[i].identifier == records[j].identifier
  {
  }

  /** What stays known when a record of a known content is added. */
  lemma KnownAgain(m: Manifest, records: seq<Record>, q: Record, byDigest: map<Digest, Entry>, identifiers: set<string>)
    requires Known(m, records, byDigest, identifiers)
    requires q.digest in byDigest && q == Repeated(q, byDigest[q.digest]) && q.identifier in identifiers
    ensures Known(m, records + [q], byDigest, identifiers)
  {
    var all := records + [q];
    assert all[|records|] == q && forall j :: 0 <= j < |records| ==> all[j] == records[j];
    forall d ensures d in byDigest <==> d in Contents(m.profiles) || exists j :: 0 <= j < |all| && all[j].digest == d {
      if d in byDigest && d !in Contents(m.profiles) {
        var j :| 0 <= j < |records| && records[j].digest == d;
        assert all[j].digest == d;
      }
    }
    forall x
      ensures x in identifiers <==> x in Identifiers(m.profiles) || exists j :: 0 <= j < |all| && all[j].identifier == x
    {
      if x in identifiers && x !in Identifiers(m.profiles) {
        var j :| 0 <= j < |records| && records[j].identifier == x;
        assert all[j].identifier == x;
      }
    }
  }

  /** A content of the library: no content has two protocols, so the profile's entry fits the file. */
  lemma LibraryEntry(s: Setting, m: Manifest, file: ImportFile, ordinal: nat, r: Record, i: nat)
    requires Usual(s) && Genuine(s, m.profiles) && i < |m.profiles| && ValidProfile(m.profiles[i])
    requires m.profiles[i].content.Sha256?
    requires s.policy(m.profiles[i].protocol, m.profiles[i].content.content) == Some(m.profiles[i].key)
    requires Examined(s, file, ordinal, r) && m.profiles[i].content == r.digest
    ensures var q := Repeated(r, EntryOf(m.profiles[i])); Fits(s, file, ordinal, q) && RecordMatches(q, m.profiles[i])
  {
    UsualProtocol(s, m.profiles[i].protocol, r.protocol.value, file.bytes);
  }

  /** A content of an earlier file. */
  lemma EarlierEntry(s: Setting, file: ImportFile, ordinal: nat, r: Record, earlier: ImportFile, o: nat, e: Record)
    requires Usual(s) && Examined(s, file, ordinal, r) && Fits(s, earlier, o, e) && e.digest == r.digest
    ensures var q := Repeated(r, Entry(e.id, e.protocol.value, e.identifier, e.key)); Fits(s, file, ordinal, q)
  {
    UsualProtocol(s, e.protocol.value, r.protocol.value, file.bytes);
  }

  lemma EarlierPlan(m: Manifest, records: seq<Record>, q: Record, j: nat)
    requires j < |records| && (forall k :: 0 <= k < |records| ==> Plan(m, records, k))
    requires q.digest !in Contents(m.profiles) && q.digest == records[j].digest
    requires q.id == records[j].id && q.identifier == records[j].identifier && q.disposition == AlreadyImported
    ensures Plan(m, records + [q], |records|)
  {
    var all := records + [q];
    assert all[j] == records[j] && Plan(m, records, j);
    forall i | 0 <= i < |records| && all[i].digest !in Contents(m.profiles)
      ensures (all[i].digest == q.digest <==> all[i].id == q.id)
      ensures (all[i].digest == q.digest <==> all[i].identifier == q.identifier)
    {
      PairPlan(m, records, i, j);
    }
  }

  ghost predicate PlannedSoFar(s: Setting, m: Manifest, files: seq<ImportFile>, records: seq<Record>) {
    && |records| <= |files|
    && forall k :: 0 <= k < |records| ==> Fits(s, files[k], k, records[k]) && Plan(m, records, k)
  }

  /** The state of Inspect's loop while everything so far is ready to commit. */
  ghost predicate Inspecting(s: Setting, m: Manifest, files: seq<ImportFile>, records: seq<Record>,
                             byDigest: map<Digest, Entry>, identifiers: set<string>) {
    PlannedSoFar(s, m, files, records) && Known(m, records, byDigest, identifiers)
  }

  /** The library as Inspect relies on it. */
  ghost predicate Trusted(s: Setting, m: Manifest) {
    && ValidManifest(m) && Genuine(s, m.profiles)
    && forall i :: 0 <= i < |m.profiles| ==>
         && m.profiles[i].content.Sha256?
         && s.policy(m.profiles[i].protocol, m.profiles[i].content.content) == Some(m.profiles[i].key)
  }

  lemma Added(s: Setting, m: Manifest, files: seq<ImportFile>, records: seq<Record>, q: Record)
    requires PlannedSoFar(s, m, files, records) && |records| < |files|
    requires Fits(s, files[|records|], |records|, q) && Plan(m, records + [q], |records|)
    ensures PlannedSoFar(s, m, files, records + [q])
  {
    PlansKept(m, records, q);
  }

  lemma PlansKept(m: Manifest, records: seq<Record>, q: Record)
    requires forall k :: 0 <= k < |records| ==> Plan(m, records, k)
    ensures forall k :: 0 <= k < |records| ==> Plan(m, records + [q], k)
  {
    forall k | 0 <= k < |records| ensures Plan(m, records + [q], k) { PlanPrefix(m, records, records + [q], k); }
  }

  lemma LibraryStep(s: Setting, m: Manifest, file: ImportFile, records: seq<Record>, r: Record,
                    byDigest: map<Digest, Entry>, identifiers: set<string>)
    requires Usual(s) && Trusted(s, m) && Known(m, records, byDigest, identifiers)
    requires Examined(s, file, |records|, r) && r.digest in Contents(m.profiles)
    ensures r.digest in byDigest
    ensures var q := Repeated(r, byDigest[r.digest]);
      Fits(s, file, |records|, q) && Plan(m, records + [q], |records|) && q.identifier in identifiers
  {
    var i := ProfileWith(m, r.digest);
    var e := KnownEntry(m, records, byDigest, identifiers, i);
    TrustedAt(s, m, i);
    LibraryEntry(s, m, file, |records|, r, i);
    LibraryPlan(m, records, Repeated(r, e), i);
  }

  lemma ProfileWith(m: Manifest, digest: Digest) returns (i: nat)
    requires digest in Contents(m.profiles)
    ensures i < |m.profiles| && m.profiles[i].content == digest
  {
    i :| 0 <= i < |m.profiles| && m.profiles[i].content == digest;
  }

  lemma KnownEntry(m: Manifest, records: seq<Record>, byDigest: map<Digest, Entry>, identifiers: set<string>, i: nat)
    returns (e: Entry)
    requires Known(m, records, byDigest, identifiers) && i < |m.profiles|
    ensures m.profiles[i].content in byDigest && e == byDigest[m.profiles[i].content] == EntryOf(m.profiles[i])
    ensures e.identifier in identifiers
  {
    e := EntryOf(m.profiles[i]);
    assert m.profiles[i].identifier in Identifiers(m.profiles);
  }

  lemma TrustedAt(s: Setting, m: Manifest, i: nat)
    requires Trusted(s, m) && i < |m.profiles|
    ensures ValidProfile(m.profiles[i]) && Genuine(s, m.profiles) && m.profiles[i].content.Sha256?
    ensures s.policy(m.profiles[i].protocol, m.profiles[i].content.content) == Some(m.profiles[i].key)
  {
  }

  lemma LibraryPlan(m: Manifest, records: seq<Record>, q: Record, i: nat)
    requires i < |m.profiles| && RecordMatches(q, m.profiles[i]) && q.disposition == AlreadyImported
    ensures Plan(m, records + [q], |records|)
  {
    assert (records + [q])[|records|] == q;
    assert Matched(q, m.profiles);
  }

  lemma EarlierStep(s: Setting, m: Manifest, files: seq<ImportFile>, records: seq<Record>, r: Record,
                    byDigest: map<Digest, Entry>, identifiers: set<string>)
    requires Usual(s) && Inspecting(s, m, files, records, byDigest, identifiers)
    requires |records| < |files| && Examined(s, files[|records|], |records|, r)
    requires r.digest in byDigest && r.digest !in Contents(m.profiles)
    ensures var q := Repeated(r, byDigest[r.digest]);
      Fits(s, files[|records|], |records|, q) && Plan(m, records + [q], |records|) && q.identifier in identifiers
  {
    var j :| 0 <= j < |records| && records[j].digest == r.digest;
    EarlierEntry(s, files[|records|], |records|, r, files[j], j, records[j]);
    EarlierPlan(m, records, Repeated(r, byDigest[r.digest]), j);
  }

  lemma RepeatedStep(s: Setting, m: Manifest, files: seq<ImportFile>, records: seq<Record>, r: Record,
                     byDigest: map<Digest, Entry>, identifiers: set<string>)
    requires Usual(s) && Trusted(s, m) && Inspecting(s, m, files, records, byDigest, identifiers)
    requires |records| < |files| && Examined(s, files[|records|], |records|, r) && r.digest in byDigest
    ensures Inspecting(s, m, files, records + [Repeated(r, byDigest[r.digest])], byDigest, identifiers)
  {
    var q := Repeated(r, byDigest[r.digest]);
    if r.digest in Contents(m.profiles) {
      LibraryStep(s, m, files[|records|], records, r, byDigest, identifiers);
    } else {
      EarlierStep(s, m, files, records, r, byDigest, identifiers);
    }
    KnownAgain(m, records, q, byDigest, identifiers);
    Added(s, m, files, records, q);
  }

  /** A content not seen before, under an identifier that nothing has: then nothing has its ID. */
  lemma FreshStep(s: Setting, m: Manifest, files: seq<ImportFile>, records: seq<Record>, r: Record, id: Id,
                  byDigest: map<Digest, Entry>, identifiers: set<string>)
    requires Usual(s) && Trusted(s, m) && Inspecting(s, m, files, records, byDigest, identifiers)
    requires |records| < |files| && Examined(s, files[|records|], |records|, r) && r.digest !in byDigest
    requires IdPattern(id) && s.identifierOf(id) !in identifiers
    ensures var identifier := s.identifierOf(id);
      Inspecting(s, m, files, records + [Fresh(r, id, identifier)],
                 byDigest[r.digest := Entry(id, r.protocol.value, identifier, r.key)], identifiers + {identifier})
  {
    var identifier := s.identifierOf(id);
    var q, n := Fresh(r, id, identifier), |records|;
    assert Fits(s, files[n], n, q);
    forall i | 0 <= i < |m.profiles| ensures m.profiles[i].id != id {
      assert m.profiles[i].identifier in Identifiers(m.profiles);
    }
    FreshPlan(m, records, q, byDigest, identifiers);
    KnownFresh(m, records, q, byDigest, identifiers);
    Added(s, m, files, records, q);
  }

  lemma FreshPlan(m: Manifest, records: seq<Record>, q: Record, byDigest: map<Digest, Entry>, identifiers: set<string>)
    requires Known(m, records, byDigest, identifiers) && q.digest !in byDigest && q.identifier !in identifiers
    requires q.disposition == New && q.id !in Ids(m.profiles)
    requires forall j :: 0 <= j < |records| ==> records[j].id != q.id
    ensures Plan(m, records + [q], |records|)
  {
    var all := records + [q];
    assert all[|records|] == q && forall j :: 0 <= j < |records| ==> all[j] == records[j];
  }

  lemma KnownFresh(m: Manifest, records: seq<Record>, q: Record, byDigest: map<Digest, Entry>, identifiers: set<string>)
    requires Known(m, records, byDigest, identifiers) && q.digest !in byDigest && q.protocol.Some?
    ensures Known(m, records + [q], byDigest[q.digest := Entry(q.id, q.protocol.value, q.identifier, q.key)],
                  identifiers + {q.identifier})
  {
    var all := records + [q];
    assert all[|records|] == q && forall j :: 0 <= j < |records| ==> all[j] == records[j];
    forall x
      ensures x in identifiers + {q.identifier} <==>
        x in Identifiers(m.profiles) || exists j :: 0 <= j < |all| && all[j].identifier == x
    {
      if x in identifiers && x !in Identifiers(m.profiles) {
        var j :| 0 <= j < |records| && records[j].identifier == x;
        assert all[j].identifier == x;
      }
    }
    forall d ensures d in byDigest[q.digest := Entry(q.id, q.protocol.value, q.identifier, q.key)]
                     <==> d in Contents(m.profiles) || exists j :: 0 <= j < |all| && all[j].digest == d {
      if d in byDigest && d !in Contents(m.profiles) {
        var j :| 0 <= j < |records| && records[j].digest == d;
        assert all[j].digest == d;
      }
    }
  }

  // ----- assembling --------------------------------------------------------------------------

  function ProfileFor(record: Record, file: ImportFile, metadata: Metadata, now: int): Profile
    requires record.protocol.Some?
  {
    Profile(record.id, record.protocol.value, metadata, record.identifier, file.name, now, record.digest, record.key)
  }

  /** What a commit works on: the files, their derived records, the metadata and the time. */
  datatype Batch = Batch(files: seq<ImportFile>, records: seq<Record>, metadata: seq<Metadata>, now: int)

  ghost predicate Sized(s: Setting, b: Batch) {
    AllFit(s, b.files, b.records) && |b.metadata| == |b.files|
  }

  function ObjectFor(b: Batch, j: nat): NewObject
    requires j < |b.records| == |b.files| == |b.metadata| && b.records[j].protocol.Some?
  {
    NewObject(ProfileFor(b.records[j], b.files[j], b.metadata[j], b.now), b.files[j].bytes)
  }

  predicate SourceOf(b: Batch, o: NewObject, j: nat) {
    && j < |b.records| == |b.files| == |b.metadata| && b.records[j].protocol.Some?
    && b.records[j].disposition == New && o == ObjectFor(b, j)
  }

  /** Every object is that of a new record: the record at `sources`. */
  ghost predicate Sourced(b: Batch, objects: seq<NewObject>, sources: seq<nat>, k: nat) {
    && |sources| == |objects|
    && forall o :: 0 <= o < |objects| ==> sources[o] < k && SourceOf(b, objects[o], sources[o])
  }

  /** Every record so far has its profile in the library or among the new ones. */
  ghost predicate Covered(b: Batch, m: Manifest, objects: seq<NewObject>, k: nat) {
    k <= |b.records| && forall j :: 0 <= j < k ==> Matched(b.records[j], m.profiles + ProfilesOf(objects))
  }

  lemma MatchedMore(r: Record, a: seq<Profile>, b: seq<Profile>)
    requires Matched(r, a)
    ensures Matched(r, a + b)
  {
    var k :| 0 <= k < |a| && RecordMatches(r, a[k]);
    assert RecordMatches(r, (a + b)[k]);
  }

  lemma CoveredAppend(b: Batch, m: Manifest, objects: seq<NewObject>, k: nat, o: NewObject)
    requires Covered(b, m, objects, k) && k < |b.records| && RecordMatches(b.records[k], o.profile)
    ensures Covered(b, m, objects + [o], k + 1)
  {
    var before, after := m.profiles + ProfilesOf(objects), m.profiles + ProfilesOf(objects + [o]);
    assert after == before + [o.profile];
    forall j | 0 <= j < k ensures Matched(b.records[j], after) { MatchedMore(b.records[j], before, [o.profile]); }
    assert RecordMatches(b.records[k], after[|before|]);
  }

  /** Under a plan: what was planned for each record's ID is a profile of that record. */
  ghost predicate Recorded(b: Batch, planned: map<Id, Profile>, k: nat) {
    && k <= |b.records|
    && forall j :: 0 <= j < k ==> b.records[j].id in planned && RecordMatches(b.records[j], planned[b.records[j].id])
  }

  lemma PlannedInLibrary(m: Manifest, records: seq<Record>, j: nat)
    requires j < |records| && Plan(m, records, j)
    ensures records[j].id in Ids(m.profiles) <==> records[j].digest in Contents(m.profiles)
    ensures records[j].id in Ids(m.profiles) ==>
      records[j].disposition == AlreadyImported && Matched(records[j], m.profiles)
  {
  }

  /** The profile with an ID is the one that a planned record of that ID matches. */
  lemma MatchesFound(r: Record, profiles: seq<Profile>, p: Profile)
    requires ValidProfiles(profiles) && Matched(r, profiles) && p in profiles && p.id == r.id
    ensures RecordMatches(r, p)
  {
    var i :| 0 <= i < |profiles| && RecordMatches(r, profiles[i]);
    var j :| 0 <= j < |profiles| && profiles[j] == p;
    assert i < j ==> Apart(profiles[i], profiles[j]);
    assert j < i ==> Apart(profiles[j], profiles[i]);
  }

  lemma ExistingMatches(m: Manifest, records: seq<Record>, j: nat, p: Profile)
    requires ValidProfiles(m.profiles) && j < |records|
    requires Plan(m, records, j) && p in m.profiles && p.id == records[j].id
    ensures records[j].disposition == AlreadyImported && RecordMatches(records[j], p)
  {
    assert p.id in Ids(m.profiles);
    PlannedInLibrary(m, records, j);
    MatchesFound(records[j], m.profiles, p);
  }

  lemma RecordedExisting(m: Manifest, b: Batch, planned: map<Id, Profile>, k: nat, p: Profile)
    requires ValidProfiles(m.profiles) && (forall j :: 0 <= j < |b.records| ==> Plan(m, b.records, j))
    requires k < |b.records| && Recorded(b, planned, k) && p in m.profiles && p.id == b.records[k].id
    ensures b.records[k].disposition == AlreadyImported && RecordMatches(b.records[k], p)
    ensures Recorded(b, planned[p.id := p], k + 1)
  {
    forall j | 0 <= j <= k && b.records[j].id == p.id
      ensures b.records[j].disposition == AlreadyImported && RecordMatches(b.records[j], p)
    {
      ExistingMatches(m, b.records, j, p);
    }
  }

  /** Two records of one content that share ID and identifier match the same profiles. */
  lemma SameContent(s: Setting, file: ImportFile, i: int, r: Record, file': ImportFile, j: int, q: Record, p: Profile)
    requires Usual(s) && Fits(s, file, i, r) && Fits(s, file', j, q)
    requires r.digest == q.digest && r.id == q.id && r.identifier == q.identifier && RecordMatches(r, p)
    ensures RecordMatches(q, p)
  {
    UsualProtocol(s, r.protocol.value, q.protocol.value, file.bytes);
  }

  lemma RepeatMatches(s: Setting, m: Manifest, b: Batch, j: nat, k: nat, p: Profile)
    requires Usual(s) && j < |b.records| && k < |b.records| == |b.files| && RecordMatches(b.records[j], p)
    requires Fits(s, b.files[j], j, b.records[j]) && Fits(s, b.files[k], k, b.records[k])
    requires Plan(m, b.records, j) && Plan(m, b.records, k)
    requires b.records[j].digest == b.records[k].digest && b.records[k].digest !in Contents(m.profiles)
    ensures b.records[j].id == b.records[k].id && RecordMatches(b.records[k], p)
  {
    PairPlan(m, b.records, j, k);
    SameContent(s, b.files[j], j, b.records[j], b.files[k], k, b.records[k], p);
  }

  lemma RecordedRepeat(s: Setting, m: Manifest, b: Batch, planned: map<Id, Profile>, j: nat, k: nat)
    requires Usual(s) && j < k < |b.records| == |b.files| && Recorded(b, planned, k)
    requires Fits(s, b.files[j], j, b.records[j]) && Fits(s, b.files[k], k, b.records[k])
    requires Plan(m, b.records, j) && Plan(m, b.records, k)
    requires b.records[j].digest == b.records[k].digest && b.records[k].digest !in Contents(m.profiles)
    ensures b.records[k].id in planned
    ensures RecordMatches(b.records[k], planned[b.records[k].id]) && Recorded(b, planned, k + 1)
  {
    RepeatMatches(s, m, b, j, k, planned[b.records[j].id]);
  }

  lemma RepeatedAgain(s: Setting, m: Manifest, b: Batch, planned: map<Id, Profile>, k: nat)
    requires Usual(s) && Planned(s, m, b.files, b.records) && k < |b.records| && Recorded(b, planned, k)
    requires b.records[k].id !in Ids(m.profiles) && b.records[k].disposition == AlreadyImported
    ensures b.records[k].id in planned
    ensures RecordMatches(b.records[k], planned[b.records[k].id]) && Recorded(b, planned, k + 1)
  {
    var j := Earlier(m, b.records, k);
    RecordedRepeat(s, m, b, planned, j, k);
  }

  lemma Earlier(m: Manifest, records: seq<Record>, k: nat) returns (j: nat)
    requires k < |records| && Plan(m, records, k)
    requires records[k].id !in Ids(m.profiles) && records[k].disposition == AlreadyImported
    ensures j < k && records[j].digest == records[k].digest && records[k].digest !in Contents(m.profiles)
  {
    PlannedInLibrary(m, records, k);
    j :| 0 <= j < k && records[j].digest == records[k].digest;
  }

  /** A new record shares neither ID nor identifier nor content with any earlier one. */
  lemma NewDiffers(m: Manifest, records: seq<Record>, j: nat, k: nat)
    requires j < k < |records| && Plan(m, records, j) && Plan(m, records, k) && records[k].disposition == New
    ensures records[j].id != records[k].id && records[j].digest != records[k].digest
    ensures records[j].digest !in Contents(m.profiles) ==> records[j].identifier != records[k].identifier
  {
    PlannedInLibrary(m, records, j);
    PlannedInLibrary(m, records, k);
    if records[j].digest !in Contents(m.profiles) { PairPlan(m, records, j, k); }
  }

  lemma RecordedNew(m: Manifest, b: Batch, planned: map<Id, Profile>, k: nat, p: Profile)
    requires k < |b.records| && Recorded(b, planned, k) && (forall j :: 0 <= j < |b.records| ==> Plan(m, b.records, j))
    requires b.records[k].disposition == New && RecordMatches(b.records[k], p)
    ensures Recorded(b, planned[p.id := p], k + 1)
  {
    forall j | 0 <= j < k ensures b.records[j].id != p.id { NewDiffers(m, b.records, j, k); }
  }

  /** Everything about a batch but its plan that its profiles need to be valid. */
  ghost predicate Presentable(s: Setting, b: Batch) {
    && Usual(s) && Sized(s, b) && b.now != 0
    && forall k :: 0 <= k < |b.files| ==> ValidMetadata(b.metadata[k])
  }

  lemma NewProfileValid(s: Setting, b: Batch, k: nat)
    requires Presentable(s, b) && k < |b.records|
    ensures ValidProfile(ObjectFor(b, k).profile) && RecordMatches(b.records[k], ObjectFor(b, k).profile)
  {
    assert Fits(s, b.files[k], k, b.records[k]);
  }

  /** A new record's profile is apart from the library and from the new profiles before it. */
  lemma NewProfileApart(m: Manifest, b: Batch, objects: seq<NewObject>, sources: seq<nat>, k: nat)
    requires k < |b.records| && b.records[k].disposition == New
    requires |b.files| == |b.metadata| == |b.records| && b.records[k].protocol.Some?
    requires forall j :: 0 <= j < |b.records| ==> Plan(m, b.records, j)
    requires Sourced(b, objects, sources, k)
    ensures ApartFrom(ObjectFor(b, k).profile, m.profiles + ProfilesOf(objects))
  {
    var p := ObjectFor(b, k).profile;
    PlannedInLibrary(m, b.records, k);
    forall i | 0 <= i < |m.profiles| ensures Apart(m.profiles[i], p) {
      var other := m.profiles[i];
      assert other.id in Ids(m.profiles) && other.identifier in Identifiers(m.profiles);
      assert other.content in Contents(m.profiles);
    }
    forall o | 0 <= o < |objects| ensures Apart(objects[o].profile, p) {
      var j := sources[o];
      PlannedInLibrary(m, b.records, j);
      NewDiffers(m, b.records, j, k);
    }
  }

  function CountNew(records: seq<Record>): nat {
    if records == [] then 0
    else CountNew(records[..|records| - 1]) + if records[|records| - 1].disposition == New then 1 else 0
  }

  /** Under a plan, the batch so far would make a valid library. */
  ghost predicate Proceeding(s: Setting, m: Manifest, b: Batch, objects: seq<NewObject>, planned: map<Id, Profile>,
                             k: nat) {
    && Recorded(b, planned, k)
    && ValidProfiles(m.profiles + ProfilesOf(objects))
    && |objects| == CountNew(b.records[..k])
  }

  lemma ProceedNew(s: Setting, m: Manifest, b: Batch, objects: seq<NewObject>, sources: seq<nat>,
                   planned: map<Id, Profile>, k: nat)
    requires Presentable(s, b) && (forall j :: 0 <= j < |b.records| ==> Plan(m, b.records, j))
    requires k < |b.records| && b.records[k].disposition == New
    requires Sourced(b, objects, sources, k) && Proceeding(s, m, b, objects, planned, k)
    ensures var o := ObjectFor(b, k); Proceeding(s, m, b, objects + [o], planned[o.profile.id := o.profile], k + 1)
  {
    var o := ObjectFor(b, k);
    NewProfileValid(s, b, k);
    NewProfileApart(m, b, objects, sources, k);
    RecordedNew(m, b, planned, k, o.profile);
    ValidWithNew(m, objects, o);
    assert b.records[..k + 1][..k] == b.records[..k];
  }

  lemma ValidWithNew(m: Manifest, objects: seq<NewObject>, o: NewObject)
    requires ValidProfiles(m.profiles + ProfilesOf(objects)) && ValidProfile(o.profile)
    requires ApartFrom(o.profile, m.profiles + ProfilesOf(objects))
    ensures ValidProfiles(m.profiles + ProfilesOf(objects + [o]))
  {
    ValidSnoc(m.profiles + ProfilesOf(objects), o.profile);
    assert m.profiles + ProfilesOf(objects + [o]) == m.profiles + ProfilesOf(objects) + [o.profile];
  }

  /** Under a plan, the whole of what the loop keeps between two records. */
  ghost predicate Following(s: Setting, m: Manifest, b: Batch, objects: seq<NewObject>, planned: map<Id, Profile>,
                            k: nat) {
    Presentable(s, b) && Planned(s, m, b.files, b.records) && Proceeding(s, m, b, objects, planned, k)
  }

  lemma ProceedSame(s: Setting, m: Manifest, b: Batch, objects: seq<NewObject>, planned: map<Id, Profile>,
                    planned': map<Id, Profile>, k: nat)
    requires Following(s, m, b, objects, planned, k) && k < |b.records|
    requires Recorded(b, planned', k + 1) && b.records[k].disposition != New
    ensures Following(s, m, b, objects, planned', k + 1)
  {
    assert b.records[..k + 1][..k] == b.records[..k];
  }

  /** The loop of Commit that turns records into objects, between two records. */
  ghost predicate Assembling(b: Batch, m: Manifest, objects: seq<NewObject>, sources: seq<nat>,
                             planned: map<Id, Profile>, k: nat) {
    && Covered(b, m, objects, k) && Sourced(b, objects, sources, k)
    && forall id :: id in planned ==>
         planned[id].id == id && (planned[id] in m.profiles || planned[id] in ProfilesOf(objects))
  }

  /** The library has the record's ID, and not as the record says. */
  predicate Outgrown(m: Manifest, r: Record) {
    r.id in Ids(m.profiles) && !(r.disposition == AlreadyImported && Matched(r, m.profiles))
  }

  /** A record of a profile of the library. */
  method AssembleExisting(s: Setting, m: Manifest, b: Batch, objects: seq<NewObject>, ghost sources: seq<nat>,
                          planned: map<Id, Profile>, k: nat, existing: Profile, ghost plan: bool)
    returns (ok: bool, planned': map<Id, Profile>)
    requires Assembling(b, m, objects, sources, planned, k) && k < |b.records|
    requires existing in m.profiles && existing.id == b.records[k].id
    requires ValidManifest(m) && (plan ==> Following(s, m, b, objects, planned, k))
    ensures ok ==> Assembling(b, m, objects, sources, planned', k + 1) && b.records[k].disposition == AlreadyImported
    ensures ok ==> !Outgrown(m, b.records[k])
    ensures plan ==> ok && Following(s, m, b, objects, planned', k + 1)
  {
    var record := b.records[k];
    planned' := planned[record.id := existing];
    if plan {
      RecordedExisting(m, b, planned, k, existing);
      ProceedSame(s, m, b, objects, planned, planned', k);
    }
    ok := record.disposition == AlreadyImported && RecordMatches(record, existing);
    if ok { CoverKnown(b, m, objects, k, existing); }
  }

  /** A record that repeats an earlier one. */
  method AssembleRepeat(s: Setting, m: Manifest, b: Batch, objects: seq<NewObject>, ghost sources: seq<nat>,
                        planned: map<Id, Profile>, k: nat, ghost plan: bool)
    returns (ok: bool)
    requires Assembling(b, m, objects, sources, planned, k) && k < |b.records|
    requires b.records[k].id !in Ids(m.profiles) && b.records[k].disposition == AlreadyImported
    requires plan ==> Following(s, m, b, objects, planned, k)
    ensures ok ==> Assembling(b, m, objects, sources, planned, k + 1)
    ensures plan ==> ok && Following(s, m, b, objects, planned, k + 1)
  {
    var record := b.records[k];
    if plan {
      RepeatedAgain(s, m, b, planned, k);
      ProceedSame(s, m, b, objects, planned, planned, k);
    }
    ok := record.id in planned && RecordMatches(record, planned[record.id]);
    if ok { CoverKnown(b, m, objects, k, planned[record.id]); }
  }

  /** A new record. */
  lemma AssembleNew(s: Setting, m: Manifest, b: Batch, objects: seq<NewObject>, sources: seq<nat>,
                    planned: map<Id, Profile>, k: nat)
    requires Sized(s, b) && Assembling(b, m, objects, sources, planned, k)
    requires k < |b.records| && b.records[k].disposition == New
    ensures var o := ObjectFor(b, k);
      Assembling(b, m, objects + [o], sources + [k], planned[o.profile.id := o.profile], k + 1)
  {
    assert Fits(s, b.files[k], k, b.records[k]);
    var o := ObjectFor(b, k);
    CoveredAppend(b, m, objects, k, o);
    assert ProfilesOf(objects + [o]) == ProfilesOf(objects) + [o.profile];
  }

  /** Every new record so far has its object, with its own file, metadata and name. */
  ghost predicate Included(s: Setting, b: Batch, objects: seq<NewObject>, k: nat)
    requires Sized(s, b)
  {
    forall j :: 0 <= j < k && j < |b.records| && b.records[j].disposition == New ==> HasObject(s, b, objects, j)
  }

  ghost predicate HasObject(s: Setting, b: Batch, objects: seq<NewObject>, j: nat)
    requires Sized(s, b) && j < |b.records|
  {
    Fits(s, b.files[j], j, b.records[j]) && ObjectFor(b, j) in objects
  }

  /** What one record adds to the objects: its own object exactly when it is new. */
  predicate Grown(s: Setting, b: Batch, objects: seq<NewObject>, more: seq<NewObject>, k: nat) {
    && k < |b.records| == |b.files| == |b.metadata| && Fits(s, b.files[k], k, b.records[k])
    && more == if b.records[k].disposition == New then objects + [ObjectFor(b, k)] else objects
  }

  lemma IncludedFurther(s: Setting, b: Batch, objects: seq<NewObject>, more: seq<NewObject>, k: nat)
    requires Sized(s, b) && Included(s, b, objects, k) && Grown(s, b, objects, more, k)
    ensures Included(s, b, more, k + 1)
  {
    forall j | 0 <= j < k + 1 && b.records[j].disposition == New ensures HasObject(s, b, more, j) {
      if j < k { assert HasObject(s, b, objects, j); }
    }
  }

  method AssembleFresh(s: Setting, m: Manifest, b: Batch, objects: seq<NewObject>, ghost sources: seq<nat>,
                       planned: map<Id, Profile>, k: nat, ghost plan: bool)
    returns (o: NewObject)
    requires Sized(s, b) && k < |b.records| && Assembling(b, m, objects, sources, planned, k)
    requires b.records[k].disposition == New && (plan ==> Following(s, m, b, objects, planned, k))
    ensures Fits(s, b.files[k], k, b.records[k]) && o == ObjectFor(b, k)
    ensures Assembling(b, m, objects + [o], sources + [k], planned[o.profile.id := o.profile], k + 1)
    ensures plan ==> Following(s, m, b, objects + [o], planned[o.profile.id := o.profile], k + 1)
  {
    assert Fits(s, b.files[k], k, b.records[k]);
    o := ObjectFor(b, k);
    AssembleNew(s, m, b, objects, sources, planned, k);
    if plan { ProceedNew(s, m, b, objects, sources, planned, k); }
  }

  method AssembleNext(s: Setting, m: Manifest, b: Batch, objects: seq<NewObject>, ghost sources: seq<nat>,
                      planned: map<Id, Profile>, k: nat, ghost plan: bool)
    returns (ok: bool, objects': seq<NewObject>, ghost sources': seq<nat>, planned': map<Id, Profile>)
    requires ValidManifest(m) && Sized(s, b) && k < |b.records| && Assembling(b, m, objects, sources, planned, k)
    requires plan ==> Following(s, m, b, objects, planned, k)
    ensures ok ==> Assembling(b, m, objects', sources', planned', k + 1) && Grown(s, b, objects, objects', k)
    ensures ok ==> !Outgrown(m, b.records[k])
    ensures plan ==> ok && Following(s, m, b, objects', planned', k + 1)
  {
    objects', sources', planned' := objects, sources, planned;
    FitsAt(s, b, k);
    var record := b.records[k];
    var found := Lookup(m.profiles, record.id);
    if found.Some? {
      ok, planned' := AssembleExisting(s, m, b, objects, sources, planned, k, found.value, plan);
    } else if record.disposition == AlreadyImported {
      ok := AssembleRepeat(s, m, b, objects, sources, planned, k, plan);
    } else {
      var o := AssembleFresh(s, m, b, objects, sources, planned, k, plan);
      ok, objects', sources', planned' := true, objects + [o], sources + [k], planned[o.profile.id := o.profile];
    }
  }

  lemma FitsAt(s: Setting, b: Batch, k: nat)
    requires Sized(s, b) && k < |b.records|
    ensures Fits(s, b.files[k], k, b.records[k]) && b.records[k].protocol.Some? && b.records[k].disposition != Undecided
  {
  }

  predicate UpToDate(m: Manifest, records: seq<Record>, k: nat) {
    k <= |records| && forall j :: 0 <= j < k ==> !Outgrown(m, records[j])
  }

  lemma UpToDateFurther(m: Manifest, records: seq<Record>, k: nat)
    requires k < |records| && UpToDate(m, records, k) && !Outgrown(m, records[k])
    ensures UpToDate(m, records, k + 1)
  {
  }

  /** The loop of the assembly after k records; without a plan only what it accepted counts. */
  ghost predicate Assembled(s: Setting, m: Manifest, b: Batch, objects: seq<NewObject>, sources: seq<nat>,
                            planned: map<Id, Profile>, k: nat)
    requires Sized(s, b)
  {
    && Assembling(b, m, objects, sources, planned, k) && Included(s, b, objects, k)
    && UpToDate(m, b.records, k)
  }

  method AssembleStep(s: Setting, m: Manifest, b: Batch, objects: seq<NewObject>, ghost sources: seq<nat>,
                      planned: map<Id, Profile>, k: nat, ghost plan: bool)
    returns (ok: bool, objects': seq<NewObject>, ghost sources': seq<nat>, planned': map<Id, Profile>)
    requires ValidManifest(m) && Sized(s, b) && k < |b.records| && Assembled(s, m, b, objects, sources, planned, k)
    requires plan ==> Following(s, m, b, objects, planned, k)
    ensures ok ==> Assembled(s, m, b, objects', sources', planned', k + 1)
    ensures plan ==> ok && Following(s, m, b, objects', planned', k + 1)
  {
    ok, objects', sources', planned' := AssembleNext(s, m, b, objects, sources, planned, k, plan);
    if ok {
      IncludedFurther(s, b, objects, objects', k);
      UpToDateFurther(m, b.records, k);
    }
  }

  /** Whatever it accepts covers every record; and it accepts every plan. */
  method Assemble(s: Setting, m: Manifest, b: Batch)
    returns (ok: bool, objects: seq<NewObject>, ghost sources: seq<nat>)
    requires ValidManifest(m) && Sized(s, b)
    ensures ok ==> Covered(b, m, objects, |b.records|) && Sourced(b, objects, sources, |b.records|)
    ensures ok ==> Included(s, b, objects, |b.records|)
    ensures ok ==> UpToDate(m, b.records, |b.records|)
    ensures Presentable(s, b) && Planned(s, m, b.files, b.records) ==>
      ok && ValidProfiles(m.profiles + ProfilesOf(objects)) && |objects| == CountNew(b.records)
  {
    objects, sources := [], [];
    var planned: map<Id, Profile> := map[];
    ghost var plan := Presentable(s, b) && Planned(s, m, b.files, b.records);
    assert m.profiles + ProfilesOf(objects) == m.profiles;
    for k := 0 to |b.records|
      invariant Assembled(s, m, b, objects, sources, planned, k)
      invariant plan ==> Following(s, m, b, objects, planned, k)
    {
      ok, objects, sources, planned := AssembleStep(s, m, b, objects, sources, planned, k, plan);
      if !ok { return; }
    }
    assert b.records[..|b.records|] == b.records;
    ok := true;
  }

  lemma CoverKnown(b: Batch, m: Manifest, objects: seq<NewObject>, k: nat, p: Profile)
    requires Covered(b, m, objects, k) && k < |b.records| && RecordMatches(b.records[k], p)
    requires p in m.profiles || p in ProfilesOf(objects)
    ensures Covered(b, m, objects, k + 1)
  {
    var all := m.profiles + ProfilesOf(objects);
    assert p in all;
    var i :| 0 <= i < |all| && all[i] == p;
    assert RecordMatches(b.records[k], all[i]);
  }

  // ----- the service -------------------------------------------------------------------------

  /** What a receipt was issued for. */
  datatype Issue = Issue(revision: nat, expiry: int, bounds: seq<R.Bound>)

  predicate WritableIssue(i: Issue) {
    && i.revision < R.WORD && R.Int64(i.expiry) && |i.bounds| < R.WORD
    && forall k :: 0 <= k < |i.bounds| ==> R.Writable(i.bounds[k])
  }

  ghost predicate AllWritable(issued: set<Issue>, revision: nat) {
    forall i :: i in issued ==> WritableIssue(i) && i.revision <= revision
  }

  /** Whatever message has the MAC was issued. */
  ghost predicate OnlyIssued(mac: seq<R.Byte> -> seq<R.Byte>, issued: set<Issue>, receipt: string) {
    var e := R.DecodeReceipt(receipt);
    e.Some? ==> forall message :: mac(message) == e.value.mac ==>
      exists i :: i in issued && message == R.Canonical(i.revision, i.expiry, i.bounds)
  }

  datatype Inspection = Inspection(revision: nat, records: seq<Record>, receipt: Option<string>, expiry: int)

  lemma TrustedStore(s: Setting, store: Store)
    requires store.Valid() && Genuine(s, store.manifest.profiles)
    requires forall p, text :: store.fs.policy(p, text) == s.policy(p, text)
    ensures Trusted(s, store.manifest)
  {
    var m := store.manifest;
    forall i | 0 <= i < |m.profiles|
      ensures m.profiles[i].content.Sha256?
      ensures s.policy(m.profiles[i].protocol, m.profiles[i].content.content) == Some(m.profiles[i].key)
    {
      assert Exact(store.fs.policy, store.fs.disk.stored, m.profiles[i]);
    }
  }

  lemma IssueWritable(s: Setting, files: seq<ImportFile>, records: seq<Record>, revision: nat, expiry: int)
    requires Usual(s) && ValidEnvelope(files) && AllFit(s, files, records) && revision < R.WORD && R.Int64(expiry)
    ensures WritableIssue(Issue(revision, expiry, BoundsOf(s, records)))
  {
    forall k | 0 <= k < |records| ensures R.Writable(BoundsOf(s, records)[k]) {
      FitsWritable(s, files[k], k, records[k]);
    }
  }

  lemma IssueAdded(s: Setting, files: seq<ImportFile>, records: seq<Record>, revision: nat, expiry: int,
                   issued: set<Issue>)
    requires Usual(s) && ValidEnvelope(files) && AllFit(s, files, records) && revision < R.WORD && R.Int64(expiry)
    requires AllWritable(issued, revision)
    ensures AllWritable(issued + {Issue(revision, expiry, BoundsOf(s, records))}, revision)
  {
    IssueWritable(s, files, records, revision, expiry);
  }

  datatype Request = Request(
    files: seq<ImportFile>, revision: nat, records: seq<Record>, metadata: map<nat, Metadata>, receipt: string,
    trust: bool)

  datatype Imported = Imported(ordinal: nat, outcome: Disposition, profile: Profile)

  /** The library only gains profiles, with a new revision, or stays. */
  predicate Extended(before: Manifest, after: Manifest) {
    after == before || (before.revision < after.revision && before.profiles <= after.profiles)
  }

  predicate Outcome(before: Manifest, objects: seq<NewObject>, after: Manifest) {
    after == before || after == Published(before, objects)
  }

  function Digests(files: seq<ImportFile>): set<Digest> {
    set k | 0 <= k < |files| :: Sha256(files[k].bytes)
  }

  /** Exactly the contents of the files were added. */
  ghost predicate Gained(b: Batch, before: Manifest, after: Manifest) {
    && before.profiles <= after.profiles
    && Contents(after.profiles) == Contents(before.profiles) + Digests(b.files)
  }

  /** Every result is the profile that holds its file's content under the record's identity. */
  ghost predicate Reported(b: Batch, m: Manifest, results: seq<Imported>) {
    && |results| == |b.records| == |b.files|
    && forall k :: 0 <= k < |results| ==> ReportedAt(b, m, results[k], k)
  }

  ghost predicate ReportedAt(b: Batch, m: Manifest, result: Imported, k: nat)
    requires k < |b.records| == |b.files|
  {
    && result.ordinal == k && result.outcome == b.records[k].disposition
    && result.profile in m.profiles && RecordMatches(b.records[k], result.profile)
    && result.profile.content == Sha256(b.files[k].bytes)
  }

  /** The result of every new record is the profile made of its own file, metadata and name. */
  ghost predicate Made(b: Batch, results: seq<Imported>) {
    && |results| == |b.records| == |b.files| == |b.metadata|
    && forall k :: 0 <= k < |results| && b.records[k].disposition == New ==> MadeAt(b, results, k)
  }

  ghost predicate MadeAt(b: Batch, results: seq<Imported>, k: nat)
    requires k < |results| == |b.records| == |b.files| == |b.metadata|
  {
    b.records[k].protocol.Some? && results[k].profile == ProfileFor(b.records[k], b.files[k], b.metadata[k], b.now)
  }

  lemma MadeAfter(s: Setting, b: Batch, objects: seq<NewObject>, before: seq<Profile>, m: Manifest,
                  results: seq<Imported>)
    requires Sized(s, b) && Included(s, b, objects, |b.records|) && Reported(b, m, results)
    requires ValidProfiles(m.profiles) && m.profiles == before + ProfilesOf(objects)
    ensures Made(b, results)
  {
    forall k | 0 <= k < |results| && b.records[k].disposition == New ensures MadeAt(b, results, k) {
      assert HasObject(s, b, objects, k);
      var i :| 0 <= i < |objects| && objects[i] == ObjectFor(b, k);
      assert m.profiles[|before| + i] == ObjectFor(b, k).profile;
      OneProfile(m.profiles, results[k].profile, ObjectFor(b, k).profile);
    }
  }

  ghost predicate Replayed(b: Batch, m: Manifest, results: seq<Imported>) {
    && |results| == |b.records| == |b.files|
    && forall k :: 0 <= k < |results| ==>
         && results[k].ordinal == k && results[k].outcome == AlreadyImported
         && results[k].profile in m.profiles && RecordMatches(b.records[k], results[k].profile)
         && results[k].profile.content == Sha256(b.files[k].bytes)
  }

  /** Every record has its profile. */
  predicate AllMatched(b: Batch, profiles: seq<Profile>) {
    forall k :: 0 <= k < |b.records| ==> Matched(b.records[k], profiles)
  }

  /** exactReplay. */
  method ExactReplay(profiles: seq<Profile>, b: Batch) returns (ok: bool, results: seq<Imported>)
    requires ValidProfiles(profiles) && |b.records| == |b.files|
    requires forall k :: 0 <= k < |b.records| ==> b.records[k].digest == Sha256(b.files[k].bytes)
    ensures ok <==> AllMatched(b, profiles)
    ensures ok ==> |results| == |b.records| && forall k :: 0 <= k < |results| ==>
      && results[k].ordinal == k && results[k].outcome == AlreadyImported
      && results[k].profile in profiles && RecordMatches(b.records[k], results[k].profile)
      && results[k].profile.content == Sha256(b.files[k].bytes)
  {
    results := [];
    for k := 0 to |b.records|
      invariant |results| == k
      invariant forall j :: 0 <= j < k ==>
        && results[j].ordinal == j && results[j].outcome == AlreadyImported
        && results[j].profile in profiles && RecordMatches(b.records[j], results[j].profile)
        && results[j].profile.content == Sha256(b.files[j].bytes)
      invariant forall j :: 0 <= j < k ==> Matched(b.records[j], profiles)
    {
      var found := Lookup(profiles, b.records[k].id);
      if found.None? || !RecordMatches(b.records[k], found.value) {
        NotMatched(b.records[k], profiles, found);
        return false, results;
      }
      InMatched(b.records[k], profiles, found.value);
      results := results + [Imported(k, AlreadyImported, found.value)];
    }
    ok := true;
  }

  lemma InMatched(r: Record, profiles: seq<Profile>, p: Profile)
    requires p in profiles && RecordMatches(r, p)
    ensures Matched(r, profiles)
  {
    var i :| 0 <= i < |profiles| && profiles[i] == p;
    assert RecordMatches(r, profiles[i]);
  }

  lemma NotMatched(r: Record, profiles: seq<Profile>, found: Option<Profile>)
    requires ValidProfiles(profiles) && (found.None? ==> r.id !in Ids(profiles))
    requires found.Some? ==> found.value in profiles && found.value.id == r.id && !RecordMatches(r, found.value)
    ensures !Matched(r, profiles)
  {
    if Matched(r, profiles) {
      FoundMatch(r, profiles);
      if found.Some? { MatchesFound(r, profiles, found.value); }
      assert false;
    }
  }

  /** A planned batch against the library it was planned for, with nothing else in its places. */
  ghost predicate Smooth(s: Setting, b: Batch, revision: nat, m: Manifest, stored: Objects) {
    && m.revision == revision && Presentable(s, b) && Planned(s, m, b.files, b.records)
    && forall k :: 0 <= k < |b.records| ==> VacantRecord(b, stored, k)
  }

  predicate VacantRecord(b: Batch, stored: Objects, k: nat) {
    && k < |b.records| == |b.files| == |b.metadata| && b.records[k].protocol.Some?
    && Vacant(stored, ObjectFor(b, k).profile)
  }

  lemma NewObjectAdmissible(policy: Policy, s: Setting, b: Batch, k: nat)
    requires Presentable(s, b) && ValidEnvelope(b.files) && k < |b.records|
    requires forall p, text :: policy(p, text) == s.policy(p, text)
    ensures AdmissibleObject(policy, ObjectFor(b, k))
  {
    assert Fits(s, b.files[k], k, b.records[k]);
    NewProfileValid(s, b, k);
  }

  lemma SmoothPublishes(policy: Policy, s: Setting, b: Batch, revision: nat, m: Manifest, stored: Objects,
                        objects: seq<NewObject>, sources: seq<nat>)
    requires ValidManifest(m) && ValidEnvelope(b.files) && Smooth(s, b, revision, m, stored)
    requires Sourced(b, objects, sources, |b.records|) && |objects| == CountNew(b.records)
    requires ValidProfiles(m.profiles + ProfilesOf(objects))
    requires forall p, text :: policy(p, text) == s.policy(p, text)
    ensures AllVacant(stored, ProfilesOf(objects), 0)
    ensures Accepts(policy, m, revision, objects) <==> |m.profiles| + CountNew(b.records) <= MAX_PROFILES
  {
    forall o | 0 <= o < |objects| ensures AdmissibleObject(policy, objects[o]) && Vacant(stored, objects[o].profile) {
      NewObjectAdmissible(policy, s, b, sources[o]);
      assert VacantRecord(b, stored, sources[o]);
    }
    PublicationValid(m, ProfilesOf(objects));
  }

  lemma GenuineAfter(s: Setting, b: Batch, m: Manifest, objects: seq<NewObject>, sources: seq<nat>)
    requires Sized(s, b) && Genuine(s, m.profiles) && Sourced(b, objects, sources, |b.records|)
    ensures Genuine(s, m.profiles + ProfilesOf(objects))
  {
    var all := m.profiles + ProfilesOf(objects);
    forall i | 0 <= i < |all| ensures all[i].identifier == s.identifierOf(all[i].id) {
      if i >= |m.profiles| {
        var j := sources[i - |m.profiles|];
        assert Fits(s, b.files[j], j, b.records[j]) && SourceOf(b, objects[i - |m.profiles|], j);
      }
    }
  }

  lemma GainedAfter(s: Setting, b: Batch, m: Manifest, objects: seq<NewObject>, sources: seq<nat>)
    requires Sized(s, b) && Sourced(b, objects, sources, |b.records|) && Covered(b, m, objects, |b.records|)
    ensures Contents(m.profiles + ProfilesOf(objects)) == Contents(m.profiles) + Digests(b.files)
  {
    var all := m.profiles + ProfilesOf(objects);
    forall d | d in Contents(all) ensures d in Contents(m.profiles) + Digests(b.files) {
      var i :| 0 <= i < |all| && all[i].content == d;
      if i >= |m.profiles| {
        var j := sources[i - |m.profiles|];
        assert SourceOf(b, objects[i - |m.profiles|], j) && Fits(s, b.files[j], j, b.records[j]);
      }
    }
    forall d | d in Contents(m.profiles) ensures d in Contents(all) {
      var i :| 0 <= i < |m.profiles| && m.profiles[i].content == d;
      assert all[i].content == d;
    }
    forall k | 0 <= k < |b.files| ensures Sha256(b.files[k].bytes) in Contents(all) {
      FoundMatch(b.records[k], all);
      assert Fits(s, b.files[k], k, b.records[k]);
    }
  }

  lemma GainedPublished(b: Batch, m: Manifest, objects: seq<NewObject>)
    requires Contents(m.profiles + ProfilesOf(objects)) == Contents(m.profiles) + Digests(b.files)
    ensures Gained(b, m, Published(m, objects)) && Published(m, objects).profiles == m.profiles + ProfilesOf(objects)
  {
    assert objects == [] ==> m.profiles + ProfilesOf(objects) == m.profiles;
  }

  method Report(b: Batch, m: Manifest) returns (results: seq<Imported>)
    requires ValidProfiles(m.profiles) && |b.records| == |b.files|
    requires forall k :: 0 <= k < |b.records| ==>
      Matched(b.records[k], m.profiles) && b.records[k].digest == Sha256(b.files[k].bytes)
    ensures Reported(b, m, results)
  {
    results := [];
    for k := 0 to |b.records|
      invariant |results| == k
      invariant forall j :: 0 <= j < k ==> ReportedAt(b, m, results[j], j)
    {
      var found := Lookup(m.profiles, b.records[k].id);
      FoundMatch(b.records[k], m.profiles);
      MatchesFound(b.records[k], m.profiles, found.value);
      results := results + [Imported(k, b.records[k].disposition, found.value)];
    }
  }

  lemma FoundMatch(r: Record, profiles: seq<Profile>)
    requires Matched(r, profiles)
    ensures r.id in Ids(profiles) && r.digest in Contents(profiles)
  {
    var k :| 0 <= k < |profiles| && RecordMatches(r, profiles[k]);
    assert profiles[k].id == r.id && profiles[k].content == r.digest;
  }

  predicate HasMetadata(metadata: map<nat, Metadata>, k: nat) {
    k in metadata && ValidMetadata(metadata[k])
  }

  /** The record that a commit derives from a file and what the client sent: nothing but what the
      client was sent is taken over. */
  function Derived(s: Setting, file: ImportFile, bound: Record): Record {
    var policy := if bound.protocol.Some? then s.policy(bound.protocol.value, file.bytes) else None;
    bound.(digest := Sha256(file.bytes), key := if policy.Some? then policy.value else NoDigest,
           override := file.override)
  }

  /** A record that fits its file is the one derived from whatever looks the same to the client. */
  lemma DerivedFits(s: Setting, file: ImportFile, ordinal: int, r: Record, bound: Record)
    requires Fits(s, file, ordinal, r) && Sent(r) == Sent(bound)
    ensures Derived(s, file, bound) == r
  {
    assert r.issues == bound.issues;
  }

  function AllDerived(s: Setting, files: seq<ImportFile>, supplied: seq<Record>): (records: seq<Record>)
    ensures |records| == |supplied|
    ensures forall k :: 0 <= k < |supplied| && k < |files| ==> records[k] == Derived(s, files[k], supplied[k])
  {
    seq(|supplied|, k requires 0 <= k < |supplied| =>
      if k < |files| then Derived(s, files[k], supplied[k]) else supplied[k])
  }

  lemma DerivedAlike(s: Setting, files: seq<ImportFile>, supplied: seq<Record>)
    requires |supplied| == |files|
    ensures SentAlike(AllDerived(s, files, supplied), supplied)
  {
  }

  lemma AllDerivedFit(s: Setting, files: seq<ImportFile>, records: seq<Record>, supplied: seq<Record>)
    requires AllFit(s, files, records) && SentAlike(records, supplied)
    ensures AllDerived(s, files, supplied) == records
  {
    forall k | 0 <= k < |records| ensures AllDerived(s, files, supplied)[k] == records[k] {
      DerivedFits(s, files[k], k, records[k], supplied[k]);
    }
  }

  /** Where no record that looks like a supplied one fits its file, no list that looks like the supplied
      one fits the files. */
  lemma NoneFits(s: Setting, files: seq<ImportFile>, supplied: seq<Record>, k: nat)
    requires k < |files| == |supplied|
    requires forall r :: Sent(r) == Sent(supplied[k]) ==> !Fits(s, files[k], k, r)
    ensures forall r :: SentAlike(r, supplied) ==> !AllFit(s, files, r)
  {
    forall r | SentAlike(r, supplied) ensures !AllFit(s, files, r) {
      assert Sent(r[k]) == Sent(supplied[k]);
    }
  }

  /** The batch of a request: its records are derived from the files. */
  function BatchOf(s: Setting, request: Request, now: int): (b: Batch)
    ensures |b.metadata| == |b.files| == |request.files| && |b.records| == |request.records|
    ensures forall k :: 0 <= k < |b.files| && k in request.metadata ==> b.metadata[k] == request.metadata[k]
  {
    Batch(request.files, AllDerived(s, request.files, request.records),
          seq(|request.files|, k requires k >= 0 =>
            if k in request.metadata then request.metadata[k] else Metadata("", "", "", "")), now)
  }

  /** The metadata of a request: exactly one valid record per file. */
  method CheckMetadata(count: nat, metadata: map<nat, Metadata>) returns (ok: bool)
    ensures ok <==> |metadata| == count && forall k :: 0 <= k < count ==> HasMetadata(metadata, k)
  {
    if |metadata| != count { return false; }
    for k := 0 to count
      invariant forall j :: 0 <= j < k ==> HasMetadata(metadata, j)
    {
      if !HasMetadata(metadata, k) { return false; }
    }
    ok := true;
  }

  class Service {
    const s: Setting
    const store: Store
    const mac: seq<R.Byte> -> seq<R.Byte>
    var gateFree: bool
    ghost var issued: set<Issue>
    ghost var faults: nat

    constructor (s: Setting, store: Store, mac: seq<R.Byte> -> seq<R.Byte>)
      requires store.Valid() && Usual(s) && Genuine(s, store.manifest.profiles)
      requires forall p, text :: store.fs.policy(p, text) == s.policy(p, text)
      requires forall message :: |mac(message)| == R.MAC_BYTES
      ensures Valid() && gateFree && issued == {}
      ensures this.s == s && this.store == store && this.mac == mac
    {
      this.s, this.store, this.mac := s, store, mac;
      this.gateFree, this.issued, this.faults := true, {}, 0;
    }

    ghost predicate Valid()
      reads this, store, store.fs
    {
      && store.Valid() && Configured() && Genuine(s, store.manifest.profiles)
      && AllWritable(issued, store.manifest.revision)
    }

    /** The service and its store consult the same policy; the MAC has its 32 bytes. */
    ghost predicate Configured() {
      && Usual(s)
      && (forall p, text :: store.fs.policy(p, text) == s.policy(p, text))
      && (forall message :: |mac(message)| == R.MAC_BYTES)
    }

    function Seal(i: Issue): string {
      R.Seal(i.expiry, mac(R.Canonical(i.revision, i.expiry, i.bounds)))
    }

    method Try() returns (ok: bool)
      modifies this`faults
      ensures faults == if ok then old(faults) else old(faults) + 1
    {
      ok := *;
      if !ok { faults := faults + 1; }
    }

    lemma SomeId()
      ensures exists id :: IdPattern(id)
    {
      assert IdPattern("tf_" + "aaaaaaaaaaaaaaaaaaaaaaaaaa");
    }

    /** generateIdentity: random IDs until one has an unused, available runtime identifier. */
    method GenerateIdentity(protocol: Protocol, used: set<string>) returns (ok: bool, id: Id, identifier: string)
      modifies this`faults
      ensures ok ==> IdPattern(id) && identifier == s.identifierOf(id) && identifier !in used
      ensures ok && protocol == WireGuard ==> !s.taken(identifier)
      ensures old(faults) <= faults && (!ok ==> old(faults) < faults)
    {
      id, identifier := "", "";
      for attempts := 0 to 128
        invariant old(faults) <= faults
      {
        ok := Try();  // the random source
        if !ok { return; }
        SomeId();
        id :| IdPattern(id);
        identifier := s.identifierOf(id);
        if identifier !in used {
          if protocol == OpenVPN { return; }
          ok := Try();  // the lookup of the runtime name
          if !ok { return; }
          if !s.taken(identifier) { return; }
        }
      }
      faults := faults + 1;
      ok := false;
    }

    /** What the loop of Inspect finds out about one file before it looks at identities. */
    method Examine(file: ImportFile, ordinal: nat) returns (r: Record)
      requires Usual(s)
      modifies this`faults
      ensures r.issues == 0 ==> Examined(s, file, ordinal, r) && faults == old(faults)
      ensures r.issues != 0 && faults == old(faults) ==> !AcceptableFile(s, file)
      ensures r.ordinal == ordinal && r.id == "" && r.disposition == Undecided
      ensures old(faults) <= faults
    {
      r := Record(ordinal, "", None, "", Undecided, 0, NoDigest, NoDigest, file.override);
      if !ValidFilename(file.name) { return r.(issues := 1); }
      r := r.(digest := Sha256(file.bytes));
      var protocol := s.detect(file);
      if protocol.None? { return r.(issues := 1); }
      r := r.(protocol := protocol);
      var policy := s.policy(protocol.value, file.bytes);
      if policy.None? { return r.(issues := 1); }
      if protocol.value == WireGuard {
        var ok := Try();  // the installed tooling
        if !ok || !s.compatible(file.bytes) { return r.(issues := 1); }
        r := r.(key := policy.value);
      }
    }

    /** A record has an issue exactly when its file is not acceptable, unless something failed; and with
        an issue it names no identity. */
    predicate Judged(file: ImportFile, r: Record, smooth: bool) {
      if r.issues == 0 then AcceptableFile(s, file)
      else (smooth ==> !AcceptableFile(s, file)) && r.id == "" && r.disposition == Undecided
    }

    ghost predicate AllJudged(files: seq<ImportFile>, records: seq<Record>, smooth: bool) {
      |records| <= |files| && forall k :: 0 <= k < |records| ==> Judged(files[k], records[k], smooth)
    }

    lemma OneMoreJudged(files: seq<ImportFile>, records: seq<Record>, r: Record, before: bool, smooth: bool)
      requires AllJudged(files, records, before) && |records| < |files| && (smooth ==> before)
      requires Judged(files[|records|], r, smooth)
      ensures AllJudged(files, records + [r], smooth)
    {
      forall k | 0 <= k < |records| ensures Judged(files[k], records[k], smooth) {
        assert Judged(files[k], records[k], before);
      }
    }

    /** The loop of Inspect: the records, ready to commit or not. */
    method InspectFiles(files: seq<ImportFile>) returns (ok: bool, ready: bool, records: seq<Record>)
      requires Valid() && !gateFree
      modifies this`faults
      ensures ok && ready ==> Planned(s, store.manifest, files, records) && Available(s, records)
      ensures !ok ==> old(faults) < faults
      ensures old(faults) <= faults
      ensures ok && faults == old(faults) ==> (ready <==> forall k :: 0 <= k < |files| ==> AcceptableFile(s, files[k]))
      ensures ok ==> |records| == |files| && AllJudged(files, records, faults == old(faults))
    {
      var m := store.manifest;
      TrustedStore(s, store);
      var byDigest, identifiers := Index(m.profiles);
      IndexKnown(m, byDigest, identifiers);
      ok, ready, records := true, true, [];
      for k := 0 to |files|
        invariant old(faults) <= faults && |records| == k
        invariant ready ==> Inspecting(s, m, files, records, byDigest, identifiers)
        invariant ready ==> Available(s, records)
        invariant AllJudged(files, records, faults == old(faults))
        invariant !ready && faults == old(faults) ==> exists j :: 0 <= j < k && !AcceptableFile(s, files[j])
      {
        ghost var before, judged := faults == old(faults), records;
        var r := Examine(files[k], k);
        if r.issues != 0 {
          ready := false;
          records := records + [r];
        } else if r.digest in byDigest {
          if ready {
            RepeatedStep(s, m, files, records, r, byDigest, identifiers);
            OneMoreName(s, records, Repeated(r, byDigest[r.digest]));
          }
          records := records + [Repeated(r, byDigest[r.digest])];
        } else {
          var id, identifier;
          ok, id, identifier := GenerateIdentity(r.protocol.value, identifiers);
          if !ok { return; }
          if ready {
            FreshStep(s, m, files, records, r, id, byDigest, identifiers);
            OneMoreName(s, records, Fresh(r, id, identifier));
          }
          records := records + [Fresh(r, id, identifier)];
          identifiers := identifiers + {identifier};
          byDigest := byDigest[r.digest := Entry(id, r.protocol.value, identifier, r.key)];
        }
        OneMoreJudged(files, judged, records[k], before, faults == old(faults));
      }
    }

    /** sign. */
    method Sign(files: seq<ImportFile>, records: seq<Record>, expiry: int) returns (receipt: string)
      requires Valid() && ValidEnvelope(files) && AllFit(s, files, records)
      requires store.manifest.revision < R.WORD && R.Int64(expiry)
      modifies this`issued
      ensures Valid() && var i := Issue(store.manifest.revision, expiry, BoundsOf(s, records));
        receipt == Seal(i) && issued == old(issued) + {i}
    {
      IssueAdded(s, files, records, store.manifest.revision, expiry, issued);
      var issue := Issue(store.manifest.revision, expiry, BoundsOf(s, records));
      issued := issued + {issue};
      receipt := Seal(issue);
    }

    /** What an issued receipt says. */
    ghost predicate Issued(files: seq<ImportFile>, inspection: Inspection, i: Issue)
      reads this`issued, store`manifest
    {
      && i == Issue(store.manifest.revision, inspection.expiry, BoundsOf(s, inspection.records))
      && i in issued && inspection.receipt == Some(Seal(i)) && inspection.revision == store.manifest.revision
      && ValidEnvelope(files) && Planned(s, store.manifest, files, inspection.records)
    }

    /** Inspect: a receipt is issued exactly for an inspection that is ready to commit. */
    method Inspect(files: seq<ImportFile>, now: int) returns (errs: Failure, inspection: Inspection, ghost i: Issue)
      requires Valid() && store.manifest.revision < R.WORD && R.Int64((now + HOUR * NANOS) / NANOS)
      modifies this`gateFree, this`issued, this`faults
      ensures Valid() && gateFree == old(gateFree)
      ensures if old(gateFree) then errs == {} ==> ValidEnvelope(files) else errs == {ImportBusy}
      ensures errs == {} ==> inspection.revision == store.manifest.revision && |inspection.records| == |files|
      ensures errs == {} ==> AllJudged(files, inspection.records, faults == old(faults))
      ensures inspection.receipt.Some? ==> errs == {} && Issued(files, inspection, i) && issued == old(issued) + {i}
      ensures inspection.receipt.Some? ==> inspection.expiry == (now + HOUR * NANOS) / NANOS
      ensures inspection.receipt.Some? ==> Available(s, inspection.records)
      ensures inspection.receipt.None? ==> issued == old(issued)
      ensures old(faults) <= faults
      ensures gateFree && faults == old(faults) && ValidEnvelope(files) ==>
        errs == {} && (inspection.receipt.Some? <==> forall k :: 0 <= k < |files| ==> AcceptableFile(s, files[k]))
    {
      inspection := Inspection(0, [], None, 0);
      i := Issue(0, 0, []);
      if !gateFree { return {ImportBusy}, inspection, i; }
      gateFree := false;
      errs := ValidateEnvelope(files);
      if errs == {} {
        var ok, ready, records := InspectFiles(files);
        var expiry := (now + HOUR * NANOS) / NANOS;
        if !ok {
          errs := {Failed};
        } else if !ready {
          inspection := Inspection(store.manifest.revision, records, None, 0);
        } else {
          var receipt := Sign(files, records, expiry);
          inspection := Inspection(store.manifest.revision, records, Some(receipt), expiry);
          i := Issue(store.manifest.revision, expiry, BoundsOf(s, records));
        }
      }
      gateFree := true;
    }

    method ReinspectOne(file: ImportFile, ordinal: nat, bound: Record) returns (ok: bool, record: Record)
      modifies this`faults
      ensures ok ==> Fits(s, file, ordinal, record) && Sent(record) == Sent(bound) && faults == old(faults)
      ensures !ok && faults == old(faults) ==> forall r :: Sent(r) == Sent(bound) ==> !Fits(s, file, ordinal, r)
      ensures old(faults) <= faults
    {
      ok, record := false, bound;
      if bound.ordinal != ordinal || !IdPattern(bound.id) || bound.protocol.None?
         || bound.identifier != s.identifierOf(bound.id) || bound.disposition == Undecided || bound.issues != 0 {
        return;
      }
      if !ValidFilename(file.name) || s.detect(file) != bound.protocol { return; }
      var policy := s.policy(bound.protocol.value, file.bytes);
      if policy.None? { return; }
      if bound.protocol.value == WireGuard {
        var answered := Try();  // the installed tooling
        if !answered || !s.compatible(file.bytes) { return; }
      }
      ok, record := true, bound.(digest := Sha256(file.bytes), key := policy.value, override := file.override);
    }

    /** reinspectBound: every bound field is derived again from the file. */
    method ReinspectBound(files: seq<ImportFile>, supplied: seq<Record>) returns (ok: bool, records: seq<Record>)
      requires |supplied| == |files|
      modifies this`faults
      ensures ok ==> AllFit(s, files, records) && SentAlike(records, supplied)
      ensures !ok && faults == old(faults) ==> forall r :: SentAlike(r, supplied) ==> !AllFit(s, files, r)
      ensures old(faults) <= faults
    {
      records := [];
      for k := 0 to |files|
        invariant old(faults) <= faults && |records| == k
        invariant forall j :: 0 <= j < k ==> Fits(s, files[j], j, records[j]) && Sent(records[j]) == Sent(supplied[j])
      {
        var record;
        ok, record := ReinspectOne(files[k], k, supplied[k]);
        if !ok {
          if faults == old(faults) { NoneFits(s, files, supplied, k); }
          return;
        }
        records := records + [record];
      }
      ok := true;
    }

    // ----- commit -----------------------------------------------------------------------------

    /** A receipt that nobody forged: whatever message has its MAC was issued by this service. */
    ghost predicate Unforged(receipt: string)
      reads this`issued
    {
      OnlyIssued(mac, issued, receipt)
    }

    /** The receipt carries the MAC of this revision, its own expiry and these records. */
    predicate Authentic(receipt: string, revision: nat, records: seq<Record>) {
      var e := R.DecodeReceipt(receipt);
      e.Some? && e.value.mac == mac(R.Canonical(revision, e.value.expiry, BoundsOf(s, records)))
    }

    /** An authentic receipt was issued for exactly this revision, expiry and these records, among the
        receipts issued by the time when nobody else could have computed its MAC. */
    lemma AuthenticIssued(receipt: string, known: set<Issue>, latest: nat, revision: nat, files: seq<ImportFile>,
                          records: seq<Record>)
      requires Configured() && OnlyIssued(mac, known, receipt) && AllWritable(known, latest)
      requires Authentic(receipt, revision, records) && revision < R.WORD
      requires ValidEnvelope(files) && AllFit(s, files, records)
      ensures var i := Issue(revision, R.DecodeReceipt(receipt).value.expiry, BoundsOf(s, records));
        i in known && receipt == Seal(i) && revision <= latest
    {
      var e := R.DecodeReceipt(receipt).value;
      R.OneAcceptedText(receipt, e);
      IssueWritable(s, files, records, revision, e.expiry);
      var i :| i in known
               && R.Canonical(revision, e.expiry, BoundsOf(s, records)) == R.Canonical(i.revision, i.expiry, i.bounds);
      R.CanonicalInjective(revision, e.expiry, BoundsOf(s, records), i.revision, i.expiry, i.bounds);
    }

    /** The records of a request as a commit derives them. */
    function Records(request: Request): seq<Record> {
      AllDerived(s, request.files, request.records)
    }

    /** What a client must send for its request to pass every check before the library is looked at. */
    ghost predicate Correct(request: Request, now: int) {
      && request.trust && ValidEnvelope(request.files) && AllFit(s, request.files, Records(request))
      && |request.metadata| == |request.files|
      && (forall k :: 0 <= k < |request.files| ==> HasMetadata(request.metadata, k))
      && Authentic(request.receipt, request.revision, Records(request))
      && now <= R.DecodeReceipt(request.receipt).value.expiry * NANOS
    }

    /** The trust in the policy was acknowledged, the commit admitted, and the receipt not expired. */
    predicate Permitted(request: Request, now: int, admitted: bool) {
      var e := R.DecodeReceipt(request.receipt);
      request.trust && admitted && e.Some? && now <= e.value.expiry * NANOS
    }

    /** The request is complete as far as it can be judged without its receipt. */
    predicate Complete(request: Request, admitted: bool) {
      && request.trust && admitted && ValidEnvelope(request.files)
      && |request.records| == |request.files| == |request.metadata|
      && forall k :: 0 <= k < |request.files| ==> HasMetadata(request.metadata, k)
    }

    predicate Expired(receipt: string, now: int) {
      var e := R.DecodeReceipt(receipt);
      e.Some? && now > e.value.expiry * NANOS
    }

    /** The checks of Commit up to the MAC: everything bound is derived again from the files. */
    method CheckRequest(request: Request, now: int, admitted: bool) returns (errs: Failure, b: Batch)
      requires !gateFree
      modifies this`faults
      ensures errs == {} ==>
        && Sized(s, b) && b == BatchOf(s, request, now) && ValidEnvelope(b.files)
        && (forall k :: 0 <= k < |b.files| ==> HasMetadata(request.metadata, k))
        && Authentic(request.receipt, request.revision, b.records)
      ensures errs == {} ==> Permitted(request, now, admitted)
      ensures faults == old(faults) && admitted && Correct(request, now) ==> errs == {}
      ensures request.trust && !admitted ==> errs == {TransitionInProgress}
      ensures request.trust && admitted && ValidEnvelope(request.files) && |request.records| != |request.files| ==>
        errs == {InvalidReceipt}
      ensures errs == {ExpiredReceipt} <==> Complete(request, admitted) && Expired(request.receipt, now)
      ensures Complete(request, admitted) ==> errs <= {InvalidReceipt, ExpiredReceipt}
      ensures errs <= {Failed, Capacity, TransitionInProgress, InvalidReceipt, ExpiredReceipt}
      ensures old(faults) <= faults
    {
      b := Batch([], [], [], 0);
      if !request.trust { return {Failed}, b; }
      if !admitted { return {TransitionInProgress}, b; }
      errs := ValidateEnvelope(request.files);
      if errs != {} { return; }
      if |request.records| != |request.files| { return {InvalidReceipt}, b; }
      var ok := CheckMetadata(|request.files|, request.metadata);
      if !ok { return {Failed}, b; }
      var e := R.DecodeReceipt(request.receipt);
      if e.None? { return {InvalidReceipt}, b; }
      if now > e.value.expiry * NANOS { return {ExpiredReceipt}, b; }
      var records;
      ok, records := ReinspectBound(request.files, request.records);
      DerivedAlike(s, request.files, request.records);
      if !ok { return {InvalidReceipt}, b; }
      AllDerivedFit(s, request.files, records, request.records);
      var input := R.CanonicalReceiptInput(request.revision, e.value.expiry, BoundsOf(s, records));
      if e.value.mac != mac(input) { return {InvalidReceipt}, b; }
      b := BatchOf(s, request, now).(records := records);
    }

    /** The request's receipt carries the MAC of this revision and of the records derived from its
        files. */
    predicate Authorised(request: Request, revision: nat) {
      && ValidEnvelope(request.files) && AllFit(s, request.files, Records(request))
      && Authentic(request.receipt, revision, Records(request))
    }

    /** A receipt that was issued, if at all, before the library had its current revision. */
    ghost predicate Outdated(receipt: string, known: set<Issue>, latest: nat)
      reads store`manifest
    {
      OnlyIssued(mac, known, receipt) && AllWritable(known, latest) && latest < store.manifest.revision
    }

    /** A request with an outdated receipt is not authorised for the current revision. */
    lemma OutdatedRefused(request: Request, known: set<Issue>, latest: nat)
      requires Configured() && Outdated(request.receipt, known, latest) && request.revision < R.WORD
      ensures request.revision == store.manifest.revision ==> !Authorised(request, request.revision)
    {
      if request.revision == store.manifest.revision && Authorised(request, request.revision) {
        AuthenticIssued(request.receipt, known, latest, request.revision, request.files, Records(request));
      }
    }

    // ----- publishing a batch -----------------------------------------------------------------

    /** Publish through the store; the service's own invariants survive. */
    method PublishObjects(revision: nat, objects: seq<NewObject>) returns (errs: Failure)
      requires Valid() && Genuine(s, store.manifest.profiles + ProfilesOf(objects))
      modifies store, store.fs`disk, store.fs`log, store.fs`faults
      ensures Valid() && Outcome(old(store.manifest), objects, store.manifest)
      ensures errs == {} ==> store.manifest == Published(old(store.manifest), objects)
      ensures old(store.manifest).revision != revision ==> store.manifest == old(store.manifest)
      ensures errs != {} && OutcomeAmbiguous !in errs ==> store.manifest == old(store.manifest)
      ensures old(store.fs.faults) <= store.fs.faults
      ensures store.fs.faults == old(store.fs.faults) ==>
        AllVacant(old(store.fs.disk.stored), ProfilesOf(objects), 0) ==>
        (errs == {} <==> Accepts(store.fs.policy, old(store.manifest), revision, objects))
    {
      var pending;
      errs, pending := store.Publish(revision, objects);
    }

    /** The publication of a batch against the library it was checked against: the library gains
        exactly the contents of the files that it did not have, each once, and every result is the
        profile that holds its file's content. */
    method PublishBatch(revision: nat, b: Batch) returns (errs: Failure, results: seq<Imported>)
      requires Valid() && Sized(s, b) && ValidEnvelope(b.files)
      modifies store, store.fs`disk, store.fs`log, store.fs`faults
      ensures Valid() && Extended(old(store.manifest), store.manifest)
      ensures errs == {} ==> Gained(b, old(store.manifest), store.manifest) && Reported(b, store.manifest, results)
      ensures errs == {} ==> Made(b, results)
      ensures !UpToDate(old(store.manifest), b.records, |b.records|) ==> errs == {StaleInspection}
      ensures old(store.manifest).revision != revision ==> store.manifest == old(store.manifest)
      ensures errs != {} && OutcomeAmbiguous !in errs ==> store.manifest == old(store.manifest)
      ensures old(store.fs.faults) <= store.fs.faults
      ensures store.fs.faults == old(store.fs.faults) ==>
        Smooth(s, b, revision, old(store.manifest), old(store.fs.disk.stored)) ==>
        (errs == {} <==> |old(store.manifest).profiles| + CountNew(b.records) <= MAX_PROFILES)
    {
      results := [];
      var ok, objects, sources := Assemble(s, store.manifest, b);
      if !ok { return {StaleInspection}, []; }
      if Smooth(s, b, revision, store.manifest, store.fs.disk.stored) {
        SmoothPublishes(store.fs.policy, s, b, revision, store.manifest, store.fs.disk.stored, objects, sources);
      }
      GenuineAfter(s, b, store.manifest, objects, sources);
      GainedAfter(s, b, store.manifest, objects, sources);
      GainedPublished(b, store.manifest, objects);
      errs := PublishObjects(revision, objects);
      if errs == {} {
        results := Report(b, store.manifest);
        MadeAfter(s, b, objects, old(store.manifest).profiles, store.manifest, results);
      }
    }

    /** The removal of a profile elsewhere leaves the service valid. */
    method RemoveMember(id: Id) returns (errs: Failure)
      requires Valid()
      modifies store, store.fs`disk, store.fs`log, store.fs`faults
      ensures Valid() && (errs == {} ==> store.manifest == Removed(old(store.manifest), id))
      ensures Advanced(old(store.manifest), store.manifest)
      ensures errs == {} ==> id !in Ids(store.manifest.profiles)
    {
      var pending;
      GenuineRemoved(s, store.manifest, id);
      RemovedIds(store.manifest.profiles, id);
      errs, pending := store.Remove(id);
    }

    /** An operation of the store beside the imports. */
    method Maintain(operation: Operation) returns (errs: Failure)
      requires Valid() && !operation.Committing? && !operation.Examining? && !operation.Removing?
      modifies store, store.fs`disk, store.fs`log, store.fs`faults
      ensures Valid() && Advanced(old(store.manifest), store.manifest)
    {
      match operation
      case Connecting(desired, connectedAt, addRecent) => errs := store.SetConnection(desired, connectedAt, addRecent);
      case Preferring(favorites, recents, startup) => errs := store.SetPreferences(favorites, recents, startup);
      case Editing(id, patch) =>
        GenuineEdited(s, store.manifest, id, patch);
        errs := store.UpdateMetadata(id, patch);
      case Repairing => errs := store.RepairDurability();
    }

    /** A stale request: it never publishes; it is a replay exactly when every record still has its
        profile, and then returns those profiles. */
    method Replay(b: Batch) returns (errs: Failure, results: seq<Imported>)
      requires Valid() && Sized(s, b)
      modifies store`manifest, store`unknown, store.fs`disk, store.fs`log, store.fs`faults
      ensures Valid() && store.manifest == old(store.manifest)
      ensures errs == {} ==> Replayed(b, store.manifest, results)
      ensures errs == {} ==> AllMatched(b, store.manifest.profiles)
      ensures store.fs.faults == old(store.fs.faults) ==>
        errs == if AllMatched(b, store.manifest.profiles) then {} else {StaleInspection}
      ensures old(store.fs.faults) <= store.fs.faults
    {
      results := [];
      errs := store.RepairDurability();
      if errs != {} { return; }
      var ok;
      ok, results := ExactReplay(store.manifest.profiles, b);
      if !ok { errs := {StaleInspection}; }
    }

    /** What Commit does with a checked batch. */
    method Settle(revision: nat, b: Batch) returns (errs: Failure, results: seq<Imported>, replayed: bool)
      requires Valid() && Sized(s, b) && ValidEnvelope(b.files) && !gateFree
      modifies store, store.fs`disk, store.fs`log, store.fs`faults
      ensures Valid() && Extended(old(store.manifest), store.manifest)
      ensures store.manifest != old(store.manifest) ==> revision == old(store.manifest).revision
      ensures errs != {} && OutcomeAmbiguous !in errs ==> store.manifest == old(store.manifest)
      ensures errs == {} ==> replayed == (revision != old(store.manifest).revision)
      ensures errs == {} && replayed ==> store.manifest == old(store.manifest) && Replayed(b, store.manifest, results)
      ensures errs == {} && !replayed ==>
        Gained(b, old(store.manifest), store.manifest) && Reported(b, store.manifest, results)
      ensures errs == {} && !replayed ==> Made(b, results)
      ensures old(store.fs.faults) <= store.fs.faults
      ensures revision != old(store.manifest).revision && store.fs.faults == old(store.fs.faults) ==>
        errs == if AllMatched(b, old(store.manifest).profiles) then {} else {StaleInspection}
      ensures store.fs.faults == old(store.fs.faults) ==>
        Smooth(s, b, revision, old(store.manifest), old(store.fs.disk.stored)) ==>
        (errs == {} <==> |old(store.manifest).profiles| + CountNew(b.records) <= MAX_PROFILES)
    {
      replayed := store.manifest.revision != revision;
      if replayed {
        errs, results := Replay(b);
      } else {
        errs, results := PublishBatch(revision, b);
      }
    }

    /** Commit. A receipt publishes only against the revision it was issued for; what is published
        are exactly the files' contents, and each result holds its file's content; a replay changes
        nothing; and without faults a correct request fails only for what these cases say. */
    method Commit(request: Request, now: int, admitted: bool)
      returns (errs: Failure, results: seq<Imported>, replayed: bool, ghost b: Batch)
      requires Valid() && request.revision < R.WORD
      modifies this`gateFree, this`faults, store, store.fs`disk, store.fs`log, store.fs`faults
      ensures Valid() && gateFree == old(gateFree) && Extended(old(store.manifest), store.manifest)
      ensures errs != {} && OutcomeAmbiguous !in errs ==> store.manifest == old(store.manifest)
      ensures store.manifest != old(store.manifest) ==>
        request.revision == old(store.manifest).revision && Authorised(request, request.revision)
      ensures !old(gateFree) ==> errs == {ImportBusy}
      ensures errs == {} ==> Permitted(request, now, admitted)
      ensures old(gateFree) && Complete(request, admitted) && Expired(request.receipt, now) ==>
        errs == {ExpiredReceipt} && store.manifest == old(store.manifest)
      ensures errs == {} ==> Sized(s, b) && b == BatchOf(s, request, now) && |request.records| == |request.files|
      ensures errs == {} ==> replayed == (request.revision != old(store.manifest).revision)
      ensures errs == {} && replayed ==> store.manifest == old(store.manifest) && Replayed(b, store.manifest, results)
      ensures errs == {} && !replayed ==>
        Gained(b, old(store.manifest), store.manifest) && Reported(b, store.manifest, results)
      ensures errs == {} && !replayed ==> Made(b, results)
      ensures old(faults) <= faults && old(store.fs.faults) <= store.fs.faults
      ensures Undisturbed(old(faults), old(store.fs.faults)) && old(gateFree) && admitted && Correct(request, now) ==>
        && b == BatchOf(s, request, now)
        && (request.revision != old(store.manifest).revision ==>
              errs == if AllMatched(b, old(store.manifest).profiles) then {} else {StaleInspection})
        && (Smooth(s, b, request.revision, old(store.manifest), old(store.fs.disk.stored)) ==>
              (errs == {} <==> |old(store.manifest).profiles| + CountNew(b.records) <= MAX_PROFILES))
    {
      results, replayed, b := [], false, BatchOf(s, request, now);
      if !gateFree { return {ImportBusy}, [], false, b; }
      gateFree := false;
      var batch;
      errs, batch := CheckRequest(request, now, admitted);
      if errs == {} {
        b := batch;
        errs, results, replayed := Settle(request.revision, batch);
      }
      gateFree := true;
    }

    ghost predicate Undisturbed(own: nat, system: nat)
      reads this`faults, store.fs`faults
    {
      faults == own && store.fs.faults == system
    }
  }

  // ----- inspection, commit and replay ---------------------------------------------------------

  /** The request that sends a commit-ready inspection back with the same files: of its records,
      whatever a client has of them. */
  ghost predicate SendsBack(service: Service, files: seq<ImportFile>, inspection: Inspection, i: Issue,
                            request: Request)
    reads service, service.store`manifest
  {
    && service.Issued(files, inspection, i) && 0 <= inspection.expiry <= R.LAST_SECOND
    && request == Request(files, inspection.revision, request.records, request.metadata, inspection.receipt.value, true)
    && SentAlike(inspection.records, request.records)
    && |request.metadata| == |files| && forall k :: 0 <= k < |files| ==> HasMetadata(request.metadata, k)
  }

  /** A commit-ready inspection, committed with the same files and valid metadata in time, is a
      correct request, and its batch is planned against the library that was inspected. */
  lemma InspectedIsCorrect(service: Service, files: seq<ImportFile>, inspection: Inspection, i: Issue, request: Request,
                           now: int)
    requires service.Valid() && SendsBack(service, files, inspection, i, request)
    requires now <= inspection.expiry * NANOS
    ensures service.Correct(request, now) && service.Records(request) == inspection.records
  {
    AllDerivedFit(service.s, files, inspection.records, request.records);
    R.Unsealed(i.expiry, service.mac(R.Canonical(i.revision, i.expiry, i.bounds)));
  }

  lemma RequestPresentable(s: Setting, request: Request, now: int)
    requires Usual(s) && AllFit(s, request.files, AllDerived(s, request.files, request.records)) && now != 0
    requires forall k :: 0 <= k < |request.files| ==> HasMetadata(request.metadata, k)
    ensures Presentable(s, BatchOf(s, request, now))
  {
    var b := BatchOf(s, request, now);
    forall k | 0 <= k < |b.files| ensures ValidMetadata(b.metadata[k]) { assert HasMetadata(request.metadata, k); }
  }

  /** Records as JSON delivers them, without digest, key and override, look the same to a client. */
  lemma DeliveredAlike(records: seq<Record>, delivered: seq<Record>)
    requires |delivered| == |records| && forall k :: 0 <= k < |records| ==> delivered[k] == Sent(records[k])
    ensures SentAlike(records, delivered)
  {
  }

  /** Every result is the profile that holds its file's content; a new one was made of the file's
      own name and metadata. */
  ghost predicate Answered(request: Request, now: int, profiles: seq<Profile>, results: seq<Imported>) {
    && |results| == |request.files| == |request.records|
    && forall k :: 0 <= k < |results| ==> AnsweredAt(request, now, profiles, results[k].profile, k)
  }

  ghost predicate AnsweredAt(request: Request, now: int, profiles: seq<Profile>, p: Profile, k: nat)
    requires k < |request.files| == |request.records|
  {
    && p in profiles && p.content == Sha256(request.files[k].bytes)
    && (request.records[k].disposition == New ==>
          k in request.metadata && p.metadata == request.metadata[k]
          && p.filename == request.files[k].name && p.importedAt == now)
  }

  lemma ReportAnswers(s: Setting, request: Request, now: int, b: Batch, m: Manifest, results: seq<Imported>)
    requires b == BatchOf(s, request, now) && Reported(b, m, results) && Made(b, results)
    requires forall k :: 0 <= k < |request.files| ==> HasMetadata(request.metadata, k)
    ensures Answered(request, now, m.profiles, results)
  {
    forall k | 0 <= k < |results| ensures AnsweredAt(request, now, m.profiles, results[k].profile, k) {
      assert HasMetadata(request.metadata, k);
      if b.records[k].disposition == New { assert MadeAt(b, results, k); }
    }
  }

  predicate AllVacantRecords(b: Batch, stored: Objects) {
    forall k :: 0 <= k < |b.records| ==> VacantRecord(b, stored, k)
  }

  /** What a sent inspection brings to Commit. */
  lemma InspectedPrepared(service: Service, files: seq<ImportFile>, inspection: Inspection, i: Issue, request: Request,
                          now: int)
    requires service.Valid() && SendsBack(service, files, inspection, i, request) && now != 0
    requires AllVacantRecords(BatchOf(service.s, request, now), service.store.fs.disk.stored)
    ensures now <= inspection.expiry * NANOS ==> service.Correct(request, now)
    ensures forall admitted :: service.Permitted(request, now, admitted) ==> now <= inspection.expiry * NANOS
    ensures var b := BatchOf(service.s, request, now);
      && Smooth(service.s, b, request.revision, service.store.manifest, service.store.fs.disk.stored)
      && Presentable(service.s, b) && b.records == inspection.records
  {
    if now <= inspection.expiry * NANOS { InspectedIsCorrect(service, files, inspection, i, request, now); }
    AllDerivedFit(service.s, files, inspection.records, request.records);
    ExpiryOfInspected(service, files, inspection, i);
    RequestPresentable(service.s, request, now);
  }

  /** Inspection plans, commit keeps the plan: against the inspected library, with the same files,
      it fails only for capacity, an expired receipt, a busy gate or a fault; and it publishes each
      new content exactly once, under its own name and metadata. */
  method CommitInspected(service: Service, files: seq<ImportFile>, inspection: Inspection, ghost i: Issue,
                         request: Request, now: int, admitted: bool)
    returns (errs: Failure, results: seq<Imported>)
    requires service.Valid() && SendsBack(service, files, inspection, i, request)
    requires request.revision < R.WORD && now != 0
    requires AllVacantRecords(BatchOf(service.s, request, now), service.store.fs.disk.stored)
    modifies service`gateFree, service`faults, service.store
    modifies service.store.fs`disk, service.store.fs`log, service.store.fs`faults
    ensures service.Valid()
    ensures errs == {} ==> Answered(request, now, service.store.manifest.profiles, results)
    ensures errs == {} ==> Gained(BatchOf(service.s, request, now), old(service.store.manifest), service.store.manifest)
    ensures service.Undisturbed(old(service.faults), old(service.store.fs.faults)) ==>
      old(service.gateFree) && admitted ==>
      (errs == {} <==>
        && now <= inspection.expiry * NANOS
        && |old(service.store.manifest).profiles| + CountNew(inspection.records) <= MAX_PROFILES)
  {
    InspectedPrepared(service, files, inspection, i, request, now);
    ghost var b;
    var replayed;
    errs, results, replayed, b := service.Commit(request, now, admitted);
    if errs == {} { ReportAnswers(service.s, request, now, b, service.store.manifest, results); }
  }

  /** The receipt of an inspection carries the inspection's expiry. */
  lemma ExpiryOfInspected(service: Service, files: seq<ImportFile>, inspection: Inspection, i: Issue)
    requires service.Valid() && service.Issued(files, inspection, i) && 0 <= inspection.expiry <= R.LAST_SECOND
    ensures var e := R.DecodeReceipt(inspection.receipt.value); e.Some? && e.value.expiry == inspection.expiry
  {
    R.Unsealed(i.expiry, service.mac(R.Canonical(i.revision, i.expiry, i.bounds)));
  }

  /** The second results are the first ones, marked as already imported. */
  predicate SameProfiles(results: seq<Imported>, again: seq<Imported>) {
    && |results| == |again|
    && forall k :: 0 <= k < |again| ==> again[k] == Imported(k, AlreadyImported, results[k].profile)
  }

  /** The results of a batch with the request's files and derived records. */
  ghost predicate ReportedFor(service: Service, request: Request, b: Batch, m: Manifest, results: seq<Imported>) {
    b.records == service.Records(request) && b.files == request.files && Reported(b, m, results)
  }

  /** A request of which every record has its profile, against a library that has moved on. */
  method Recommit(service: Service, request: Request, now: int, ghost b: Batch, ghost results: seq<Imported>)
    returns (errs: Failure, again: seq<Imported>)
    requires service.Valid() && request.revision < R.WORD && service.gateFree
    requires request.revision != service.store.manifest.revision
    requires ReportedFor(service, request, b, service.store.manifest, results)
    modifies service`gateFree, service`faults, service.store
    modifies service.store.fs`disk, service.store.fs`log, service.store.fs`faults
    ensures service.Valid() && old(service.faults) <= service.faults
    ensures old(service.store.fs.faults) <= service.store.fs.faults
    ensures service.Correct(request, now) && service.Undisturbed(old(service.faults), old(service.store.fs.faults)) ==>
      errs == {}
    ensures errs == {} ==> service.store.manifest == old(service.store.manifest) && SameProfiles(results, again)
  {
    var replayed;
    ghost var c;
    ghost var m := service.store.manifest;
    ReportedMatched(b, m, results);
    errs, again, replayed, c := service.Commit(request, now, true);
    if errs == {} { ReplaysSame(b, c, m, results, again); }
  }

  /** A first commit, and whether it published something. */
  method CommitFirst(service: Service, request: Request, now: int)
    returns (errs: Failure, results: seq<Imported>, published: bool, ghost b: Batch)
    requires service.Valid() && request.revision < R.WORD
    modifies service`gateFree, service`faults, service.store
    modifies service.store.fs`disk, service.store.fs`log, service.store.fs`faults
    ensures service.Valid() && service.gateFree == old(service.gateFree)
    ensures old(service.faults) <= service.faults && old(service.store.fs.faults) <= service.store.fs.faults
    ensures published <==> errs == {} && service.store.manifest.revision != old(service.store.manifest.revision)
    ensures errs == {} && !published ==> service.store.manifest == old(service.store.manifest)
    ensures published ==>
      && request.revision != service.store.manifest.revision
      && ReportedFor(service, request, b, service.store.manifest, results)
  {
    var replayed;
    var before := service.store.manifest.revision;
    errs, results, replayed, b := service.Commit(request, now, true);
    published := errs == {} && service.store.manifest.revision != before;
  }

  /** The same request committed again after it published something: the same profiles, marked as a
      replay, and the library unchanged. */
  method CommitTwice(service: Service, request: Request, now: int, later: int)
    returns (published: bool, second: Failure, results: seq<Imported>, again: seq<Imported>, ghost between: Manifest)
    requires service.Valid() && request.revision < R.WORD && service.gateFree
    modifies service`gateFree, service`faults, service.store
    modifies service.store.fs`disk, service.store.fs`log, service.store.fs`faults
    ensures published ==> between.revision != old(service.store.manifest.revision)
    ensures published && second == {} ==> service.store.manifest == between && SameProfiles(results, again)
    ensures service.Undisturbed(old(service.faults), old(service.store.fs.faults)) ==>
      published && service.Correct(request, later) ==> second == {}
  {
    ghost var b;
    var first;
    first, results, published, b := CommitFirst(service, request, now);
    between := service.store.manifest;
    second, again := {}, [];
    if published { second, again := Recommit(service, request, later, b, results); }
  }

  lemma ReportedMatched(b: Batch, m: Manifest, results: seq<Imported>)
    requires Reported(b, m, results)
    ensures AllMatched(b, m.profiles)
  {
    forall k | 0 <= k < |b.records| ensures Matched(b.records[k], m.profiles) {
      InMatched(b.records[k], m.profiles, results[k].profile);
    }
  }

  lemma ReplaysSame(b: Batch, c: Batch, m: Manifest, results: seq<Imported>, again: seq<Imported>)
    requires ValidManifest(m) && b.records == c.records && b.files == c.files
    requires Reported(b, m, results) && Replayed(c, m, again)
    ensures SameProfiles(results, again)
  {
    forall k | 0 <= k < |again| ensures again[k].profile == results[k].profile {
      OneProfile(m.profiles, again[k].profile, results[k].profile);
    }
  }

  lemma GenuineEdited(s: Setting, m: Manifest, id: Id, patch: Patch)
    requires Genuine(s, m.profiles)
    ensures id in Ids(m.profiles) ==>
      Genuine(s, Edit(m, id, patch).profiles) && m.revision < Edit(m, id, patch).revision
  {
  }

  lemma GenuineRemoved(s: Setting, m: Manifest, id: Id)
    requires Genuine(s, m.profiles)
    ensures Genuine(s, Removed(m, id).profiles)
  {
    WithoutProfileExact(m.profiles, id);
    var rest := Removed(m, id).profiles;
    forall k | 0 <= k < |rest|
      ensures rest[k].identifier == s.identifierOf(rest[k].id)
    {
      assert rest[k] in m.profiles;
    }
  }

  /** A request that is not authorised for the current revision: it changes nothing, and succeeds only
      when the library still has every bound ID. */
  method CommitStale(service: Service, request: Request, now: int, admitted: bool) returns (errs: Failure)
    requires service.Valid() && request.revision < R.WORD
    requires request.revision == service.store.manifest.revision ==> !service.Authorised(request, request.revision)
    modifies service`gateFree, service`faults, service.store
    modifies service.store.fs`disk, service.store.fs`log, service.store.fs`faults
    ensures service.Valid() && service.gateFree == old(service.gateFree)
    ensures service.store.manifest == old(service.store.manifest)
    ensures errs == {} ==> HasMembers(request, service.store.manifest)
  {
    var results, replayed;
    ghost var b;
    errs, results, replayed, b := service.Commit(request, now, admitted);
    if errs == {} {
      MembersPresent(b, service.store.manifest, results);
      DerivedMembers(service.s, request, service.store.manifest);
    }
  }

  predicate HasMembers(request: Request, m: Manifest) {
    forall k :: 0 <= k < |request.records| ==> request.records[k].id in Ids(m.profiles)
  }

  lemma DerivedMembers(s: Setting, request: Request, m: Manifest)
    requires |request.records| == |request.files|
    requires var records := AllDerived(s, request.files, request.records);
      forall k :: 0 <= k < |records| ==> records[k].id in Ids(m.profiles)
    ensures HasMembers(request, m)
  {
    var records := AllDerived(s, request.files, request.records);
    forall k | 0 <= k < |request.records| ensures request.records[k].id in Ids(m.profiles) {
      assert records[k].id == request.records[k].id;
    }
  }

  /** Right after any member of a committed batch is removed, no request with a receipt issued before
      publishes or recreates anything, and none that binds the member succeeds. */
  method CommitAfterRemoval(service: Service, removed: Id, request: Request, now: int)
    returns (removal: Failure, errs: Failure, ghost after: Manifest)
    requires service.Valid() && service.Unforged(request.receipt) && request.revision < R.WORD
    requires removed in Ids(service.store.manifest.profiles)
    modifies service`gateFree, service`faults, service.store
    modifies service.store.fs`disk, service.store.fs`log, service.store.fs`faults
    ensures removal == {} ==> after == Removed(old(service.store.manifest), removed)
    ensures removal == {} ==> service.store.manifest == after
    ensures removal == {} && (exists k :: 0 <= k < |request.records| && request.records[k].id == removed) ==> errs != {}
  {
    ghost var latest := service.store.manifest.revision;
    removal := service.RemoveMember(removed);
    after := service.store.manifest;
    errs := {};
    if removal == {} {
      service.OutdatedRefused(request, service.issued, latest);
      errs := CommitStale(service, request, now, true);
    }
  }

  lemma MembersPresent(b: Batch, m: Manifest, results: seq<Imported>)
    requires Reported(b, m, results) || Replayed(b, m, results)
    ensures forall k :: 0 <= k < |b.records| ==> b.records[k].id in Ids(m.profiles)
  {
    forall k | 0 <= k < |b.records| ensures b.records[k].id in Ids(m.profiles) {
      var i :| 0 <= i < |m.profiles| && m.profiles[i] == results[k].profile;
      assert m.profiles[i].id in Ids(m.profiles);
    }
  }

  // ----- whole runs ----------------------------------------------------------------------------

  /** What may happen to a library with an import service, in any order. */
  datatype Operation =
    | Examining(files: seq<ImportFile>, examinedAt: int)
    | Committing(request: Request, committedAt: int, admitted: bool)
    | Removing(removed: Id)
    | Connecting(desired: Id, connectedAt: int, addRecent: bool)
    | Preferring(favorites: seq<Id>, recents: seq<Id>, startup: Startup)
    | Editing(edited: Id, patch: Patch)
    | Repairing

  /** Times and revisions are in the ranges of their machine types. */
  predicate InRange(operation: Operation) {
    && (operation.Examining? ==> R.Int64((operation.examinedAt + HOUR * NANOS) / NANOS))
    && (operation.Committing? ==> operation.request.revision < R.WORD)
  }

  /** Nothing changed, or the revision is greater. */
  predicate Advanced(before: Manifest, after: Manifest) {
    after == before || before.revision < after.revision
  }

  /** An operation that is not a commit. */
  method Perform(service: Service, operation: Operation) returns (errs: Failure)
    requires service.Valid() && InRange(operation) && !operation.Committing?
    modifies service, service.store, service.store.fs`disk, service.store.fs`log, service.store.fs`faults
    ensures service.Valid() && service.gateFree == old(service.gateFree)
    ensures Advanced(old(service.store.manifest), service.store.manifest)
  {
    errs := {};
    if operation.Examining? {
      if service.store.manifest.revision < R.WORD {
        var inspection;
        ghost var i;
        errs, inspection, i := service.Inspect(operation.files, operation.examinedAt);
      }
    } else if operation.Removing? {
      errs := service.RemoveMember(operation.removed);
    } else {
      errs := service.Maintain(operation);
    }
  }

  /** The request of the operation, if it commits with this receipt, changed nothing and succeeded only
      while the library had every bound ID. */
  predicate Harmless(operation: Operation, receipt: string, errs: Failure, before: Manifest, after: Manifest) {
    operation.Committing? && operation.request.receipt == receipt ==>
      after == before && (errs == {} ==> HasMembers(operation.request, before))
  }

  method Step(service: Service, operation: Operation, receipt: string, ghost known: set<Issue>, ghost latest: nat)
    returns (errs: Failure)
    requires service.Valid() && InRange(operation) && service.Outdated(receipt, known, latest)
    modifies service, service.store, service.store.fs`disk, service.store.fs`log, service.store.fs`faults
    ensures service.Valid() && service.gateFree == old(service.gateFree) && service.Outdated(receipt, known, latest)
    ensures Advanced(old(service.store.manifest), service.store.manifest)
    ensures Harmless(operation, receipt, errs, old(service.store.manifest), service.store.manifest)
  {
    if !operation.Committing? {
      errs := Perform(service, operation);
    } else if operation.request.receipt == receipt {
      service.OutdatedRefused(operation.request, known, latest);
      errs := CommitStale(service, operation.request, operation.committedAt, operation.admitted);
    } else {
      var results, replayed;
      ghost var b;
      errs, results, replayed, b := service.Commit(operation.request, operation.committedAt, operation.admitted);
    }
  }

  /** The library before and after every operation of a run. */
  ghost predicate History(history: seq<Manifest>, outcomes: seq<Failure>, operations: seq<Operation>, receipt: string) {
    && |history| == |outcomes| + 1 && |outcomes| <= |operations|
    && forall k :: 0 <= k < |outcomes| ==>
         && Advanced(history[k], history[k + 1])
         && Harmless(operations[k], receipt, outcomes[k], history[k], history[k + 1])
  }

  lemma HistoryFurther(history: seq<Manifest>, outcomes: seq<Failure>, operations: seq<Operation>, receipt: string,
                       errs: Failure, m: Manifest)
    requires History(history, outcomes, operations, receipt) && |outcomes| < |operations|
    requires Advanced(history[|history| - 1], m)
    requires Harmless(operations[|outcomes|], receipt, errs, history[|history| - 1], m)
    ensures History(history + [m], outcomes + [errs], operations, receipt)
  {
    var longer, more := history + [m], outcomes + [errs];
    forall k | 0 <= k < |more|
      ensures Advanced(longer[k], longer[k + 1]) && Harmless(operations[k], receipt, more[k], longer[k], longer[k + 1])
    {
    }
  }

  /** Every run from a library newer than a receipt: revisions never go back, and no commit with that
      receipt ever changes the library. */
  method RunOutdated(service: Service, operations: seq<Operation>, receipt: string, ghost known: set<Issue>,
                     ghost latest: nat)
    returns (outcomes: seq<Failure>, ghost history: seq<Manifest>)
    requires service.Valid() && service.Outdated(receipt, known, latest)
    requires forall k :: 0 <= k < |operations| ==> InRange(operations[k])
    modifies service, service.store, service.store.fs`disk, service.store.fs`log, service.store.fs`faults
    ensures service.Valid() && |outcomes| == |operations| && History(history, outcomes, operations, receipt)
    ensures history[0] == old(service.store.manifest) && history[|operations|] == service.store.manifest
  {
    outcomes, history := [], [service.store.manifest];
    for k := 0 to |operations|
      invariant service.Valid() && service.Outdated(receipt, known, latest)
      invariant |outcomes| == k && History(history, outcomes, operations, receipt)
      invariant history[0] == old(service.store.manifest) && history[k] == service.store.manifest
    {
      var errs := Step(service, operations[k], receipt, known, latest);
      HistoryFurther(history, outcomes, operations, receipt, errs, service.store.manifest);
      outcomes, history := outcomes + [errs], history + [service.store.manifest];
    }
  }

  /** After any member of the library is removed, no receipt issued before can publish or recreate
      anything, at any later time and whatever happens in between; and a commit with it succeeds only
      while the library has every profile that it binds. */
  method RunAfterRemoval(service: Service, removed: Id, receipt: string, operations: seq<Operation>)
    returns (removal: Failure, outcomes: seq<Failure>, ghost history: seq<Manifest>)
    requires service.Valid() && service.Unforged(receipt) && removed in Ids(service.store.manifest.profiles)
    requires forall k :: 0 <= k < |operations| ==> InRange(operations[k])
    modifies service, service.store, service.store.fs`disk, service.store.fs`log, service.store.fs`faults
    ensures removal == {} ==> |outcomes| == |operations| && History(history, outcomes, operations, receipt)
    ensures removal == {} ==> history[0] == Removed(old(service.store.manifest), removed)
    ensures removal == {} ==> history[|operations|] == service.store.manifest
  {
    outcomes, history := [], [];
    ghost var known, latest := service.issued, service.store.manifest.revision;
    removal := service.RemoveMember(removed);
    if removal == {} { outcomes, history := RunOutdated(service, operations, receipt, known, latest); }
  }
}
