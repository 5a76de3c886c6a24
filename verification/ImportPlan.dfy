/** What an import inspection plans and what a commit checks again (internal/profiles/import.go):
    detection, the bound records, and the relation between records, files and the library. */
module ImportPlan {
  import opened Contracts
  import opened Text
  import opened Library
  import opened Disk
  import opened ProfileStore
  import P = Policies
  import D = Detection
  import R = Receipt

  const MAX_FILES := 100
  const MAX_REQUEST := 0x200_0000

  /** A protocol override as the client sent it. */
  datatype Override = NoOverride | Chosen(protocol: Protocol) | Unknown

  datatype ImportFile = ImportFile(name: string, bytes: string, override: Override)

  datatype Disposition = Undecided | New | AlreadyImported

  /** An inspection record; digest, key and override are not sent to the client. */
  datatype Record = Record(
    ordinal: int, id: Id, protocol: Option<Protocol>, identifier: string, disposition: Disposition, issues: nat,
    digest: Digest, key: Digest, override: Override)

  /** What the service consults: the policies and detection, the runtime identifier of an ID, the
      installed WireGuard tooling, the runtime names taken on the host, and the text encodings that the
      receipt binds. */
  datatype Setting = Setting(
    policy: Policy, detect: ImportFile -> Option<Protocol>, identifierOf: Id -> string, compatible: string -> bool,
    taken: string -> bool, utf8: string -> seq<R.Byte>, hex: Digest -> seq<R.Byte>)

  /** Digests that occur in records. */
  predicate Small(d: Digest) {
    d.Sha256? ==> ByteLength(d.content) <= MAX_PROFILE_BYTES
  }

  /** No content has two protocols, and exactly WireGuard contents have a key. */
  ghost predicate UsualPolicy(policy: Policy) {
    && (forall p, q, text :: policy(p, text).Some? && policy(q, text).Some? ==> p == q)
    && (forall p, text :: policy(p, text).Some? ==>
          Small(policy(p, text).value) && (p == WireGuard <==> policy(p, text).value.Sha256?))
  }

  /** What is assumed of the setting besides: encodings are injective, SHA-256 included. */
  ghost predicate Usual(s: Setting) {
    && UsualPolicy(s.policy)
    && (forall a, b :: s.utf8(a) == s.utf8(b) ==> a == b)
    && (forall a: string :: |a| <= 64 ==> |s.utf8(a)| < R.WORD)
    && (forall a, b :: s.hex(a) == s.hex(b) ==> a == b)
    && (forall d :: Small(d) ==> |s.hex(d)| < R.WORD)
    && (forall id :: IdentifierPattern(s.identifierOf(id)))
  }

  lemma UsualProtocol(s: Setting, p: Protocol, q: Protocol, text: string)
    requires Usual(s) && s.policy(p, text).Some? && s.policy(q, text).Some?
    ensures p == q
  {
  }

  /** ValidateImportedProfile. */
  function ImportPolicy(rules: P.Rules, formats: P.Formats): Policy {
    (protocol: Protocol, text: string) =>
      if protocol == WireGuard then P.WireGuardAccepts(formats, text)
      else if P.OpenVPNAccepts(rules, text) then Some(NoDigest)
      else None
  }

  /** The two policies of the repository are such: they are disjoint. */
  lemma ImportPolicyUsual(rules: P.Rules, formats: P.Formats)
    requires P.Sane(rules)
    requires forall key :: formats.identity(key).Sha256? && Small(formats.identity(key))
    ensures UsualPolicy(ImportPolicy(rules, formats))
  {
    forall p, q, text | ImportPolicy(rules, formats)(p, text).Some? && ImportPolicy(rules, formats)(q, text).Some?
      ensures p == q
    {
      D.PoliciesDisjoint(rules, formats, text);
    }
  }

  // ----- detection ---------------------------------------------------------------------------

  /** filepath.Ext of a name without separators. */
  function Extension(name: string): string {
    if name == "" then "" else if name[|name| - 1] == '.' then "." else
      var rest := Extension(name[..|name| - 1]);
      if rest == "" then "" else rest + [name[|name| - 1]]
  }

  predicate Contains(text: string, part: string) {
    exists k :: 0 <= k <= |text| && part <= text[k..]
  }

  function DetectProtocol(rules: P.Rules, formats: P.Formats, file: ImportFile): Option<Protocol> {
    var extension := P.Lower(rules.lower, Extension(file.name));
    if extension == ".ovpn" then
      if file.override != NoOverride && file.override != Chosen(OpenVPN) then None else Some(OpenVPN)
    else if extension != ".conf" then None
    else if file.override.Chosen? then Some(file.override.protocol)
    else
      var wireGuard := P.WireGuardAccepts(formats, file.bytes).Some?;
      var openVPN := P.OpenVPNAccepts(rules, file.bytes);
      if wireGuard && !openVPN then Some(WireGuard)
      else if openVPN && !wireGuard then Some(OpenVPN)
      else
        var text := P.Lower(rules.lower, file.bytes);
        var wireGuardSignal := Contains(text, "[interface]") || Contains(text, "privatekey");
        var openVPNSignal := Contains(text, "client") || Contains(text, "remote ") || Contains(text, "<ca>");
        if wireGuardSignal != openVPNSignal then Some(if wireGuardSignal then WireGuard else OpenVPN) else None
  }

  /** The text has a sign of this protocol. */
  predicate Signals(rules: P.Rules, text: string, protocol: Protocol) {
    var t := P.Lower(rules.lower, text);
    if protocol == WireGuard then Contains(t, "[interface]") || Contains(t, "privatekey")
    else Contains(t, "client") || Contains(t, "remote ") || Contains(t, "<ca>")
  }

  predicate SomePolicyAccepts(rules: P.Rules, formats: P.Formats, text: string) {
    P.WireGuardAccepts(formats, text).Some? || P.OpenVPNAccepts(rules, text)
  }

  /** An .ovpn file is OpenVPN's and cannot be anything else; a .conf file is what the client chose, or
      what the policy that accepts it says, or, if none does, what it has signs of alone. */
  lemma DetectionExact(rules: P.Rules, formats: P.Formats, file: ImportFile, protocol: Protocol)
    requires P.Sane(rules) && file.override != Unknown
    ensures var extension := P.Lower(rules.lower, Extension(file.name));
      DetectProtocol(rules, formats, file) == Some(protocol) <==>
        || (extension == ".ovpn" && protocol == OpenVPN && file.override != Chosen(WireGuard))
        || (extension == ".conf" && file.override == Chosen(protocol))
        || (extension == ".conf" && file.override == NoOverride
            && if SomePolicyAccepts(rules, formats, file.bytes)
               then ImportPolicy(rules, formats)(protocol, file.bytes).Some?
               else Signals(rules, file.bytes, protocol)
                    && forall other :: other != protocol ==> !Signals(rules, file.bytes, other))
  {
    D.PoliciesDisjoint(rules, formats, file.bytes);
    assert Signals(rules, file.bytes, WireGuard) || !Signals(rules, file.bytes, WireGuard);
    assert Signals(rules, file.bytes, OpenVPN) || !Signals(rules, file.bytes, OpenVPN);
  }

  /** The extension is what follows the last dot, and the dot. */
  lemma {:induction false} ExtensionExact(name: string) returns (stem: string)
    ensures '.' !in name ==> Extension(name) == ""
    ensures '.' in name ==> Extension(name) != "" && name == stem + Extension(name)
    ensures '.' in name ==> Extension(name)[0] == '.' && '.' !in Extension(name)[1..]
  {
    stem := "";
    if name != "" {
      var before, c := name[..|name| - 1], name[|name| - 1];
      assert name == before + [c];
      if c == '.' {
        stem := before;
      } else {
        stem := ExtensionExact(before);
      }
    }
  }

  /** A file that is accepted under its detected protocol, and whose content a stored profile has, is of
      that profile's protocol and has its key; an override cannot make it otherwise. */
  lemma OneProtocol(rules: P.Rules, formats: P.Formats, file: ImportFile, stored: Profile)
    requires P.Sane(rules) && stored.content == Sha256(file.bytes)
    requires ImportPolicy(rules, formats)(stored.protocol, stored.content.content) == Some(stored.key)
    ensures var policy, detected := ImportPolicy(rules, formats), DetectProtocol(rules, formats, file);
      detected.Some? && policy(detected.value, file.bytes).Some? ==>
        detected.value == stored.protocol && policy(detected.value, file.bytes) == Some(stored.key)
  {
    D.PoliciesDisjoint(rules, formats, file.bytes);
  }

  // ----- the envelope ------------------------------------------------------------------------

  function TotalBytes(files: seq<ImportFile>): nat {
    if files == [] then 0 else TotalBytes(files[..|files| - 1]) + ByteLength(files[|files| - 1].bytes)
  }

  predicate ValidEnvelope(files: seq<ImportFile>) {
    && 0 < |files| <= MAX_FILES
    && (forall k :: 0 <= k < |files| ==> P.RightSize(files[k].bytes) && files[k].override != Unknown)
    && TotalBytes(files) <= MAX_REQUEST
  }

  lemma {:induction false} TotalGrows(files: seq<ImportFile>, k: nat)
    requires k <= |files|
    ensures TotalBytes(files[..k]) <= TotalBytes(files)
    decreases |files|
  {
    if k < |files| {
      TotalGrows(files[..|files| - 1], k);
      assert files[..|files| - 1][..k] == files[..k];
    } else {
      assert files[..k] == files;
    }
  }

  /** validateImportEnvelope: accepts exactly the valid envelopes. */
  method ValidateEnvelope(files: seq<ImportFile>) returns (errs: Failure)
    ensures errs == {} <==> ValidEnvelope(files)
    ensures errs == {} || errs == {Failed} || errs == {Capacity}
    ensures errs == {Capacity} <==> |files| > MAX_FILES
  {
    if |files| == 0 { return {Failed}; }
    if |files| > MAX_FILES { return {Capacity}; }
    var total := 0;
    for k := 0 to |files|
      invariant total == TotalBytes(files[..k]) <= MAX_REQUEST
      invariant forall j :: 0 <= j < k ==> P.RightSize(files[j].bytes) && files[j].override != Unknown
    {
      assert files[..k + 1][..k] == files[..k];
      if ByteLength(files[k].bytes) == 0 || ByteLength(files[k].bytes) > MAX_PROFILE_BYTES { return {Failed}; }
      total := total + ByteLength(files[k].bytes);
      TotalGrows(files, k + 1);
      if total > MAX_REQUEST { return {Failed}; }
      if files[k].override == Unknown { return {Failed}; }
    }
    assert files[..|files|] == files;
    errs := {};
  }

  // ----- records -----------------------------------------------------------------------------

  /** The record agrees with what is found in its file. */
  predicate Fits(s: Setting, file: ImportFile, ordinal: int, record: Record) {
    && record.ordinal == ordinal && record.issues == 0
    && IdPattern(record.id) && record.identifier == s.identifierOf(record.id)
    && record.disposition != Undecided
    && ValidFilename(file.name)
    && record.protocol.Some? && s.detect(file) == record.protocol
    && s.policy(record.protocol.value, file.bytes) == Some(record.key)
    && (record.protocol.value == WireGuard ==> s.compatible(file.bytes))
    && record.digest == Sha256(file.bytes)
    && record.override == file.override
  }

  /** A record as a client has it: what is not exported is empty. */
  function Sent(r: Record): Record {
    r.(digest := NoDigest, key := NoDigest, override := NoOverride)
  }

  /** The two lists look the same to a client. */
  predicate SentAlike(a: seq<Record>, b: seq<Record>) {
    |a| == |b| && forall k :: 0 <= k < |a| ==> Sent(a[k]) == Sent(b[k])
  }

  predicate AllFit(s: Setting, files: seq<ImportFile>, records: seq<Record>) {
    |records| == |files| && forall k :: 0 <= k < |files| ==> Fits(s, files[k], k, records[k])
  }

  /** recordMatchesProfile. */
  predicate RecordMatches(record: Record, p: Profile) {
    && record.id == p.id && record.protocol == Some(p.protocol) && record.identifier == p.identifier
    && record.digest == p.content && record.key == p.key
  }

  predicate Matched(record: Record, profiles: seq<Profile>) {
    exists k :: 0 <= k < |profiles| && RecordMatches(record, profiles[k])
  }

  /** The identifier of every profile is the one its ID determines. */
  predicate Genuine(s: Setting, profiles: seq<Profile>) {
    forall k :: 0 <= k < |profiles| ==> profiles[k].identifier == s.identifierOf(profiles[k].id)
  }

  /** Of a content new to the library, the first record is new under an ID that nothing else has,
      and the later ones repeat it; a content of the library has its profile's record. */
  predicate Plan(m: Manifest, records: seq<Record>, k: nat)
    requires k < |records|
  {
    var r := records[k];
    if r.digest in Contents(m.profiles) then r.disposition == AlreadyImported && Matched(r, m.profiles)
    else
      && r.id !in Ids(m.profiles) && r.identifier !in Identifiers(m.profiles)
      && (r.disposition == New <==> forall j :: 0 <= j < k ==> records[j].digest != r.digest)
      && forall j :: 0 <= j < k && records[j].digest !in Contents(m.profiles) ==>
           (records[j].digest == r.digest <==> records[j].id == r.id)
           && (records[j].digest == r.digest <==> records[j].identifier == r.identifier)
  }

  /** A new WireGuard profile gets no runtime name that is taken on the host. */
  predicate FreeName(s: Setting, record: Record) {
    record.disposition == New && record.protocol == Some(WireGuard) ==> !s.taken(record.identifier)
  }

  predicate Available(s: Setting, records: seq<Record>) {
    forall k :: 0 <= k < |records| ==> FreeName(s, records[k])
  }

  lemma OneMoreName(s: Setting, records: seq<Record>, record: Record)
    requires Available(s, records) && FreeName(s, record)
    ensures Available(s, records + [record])
  {
  }

  predicate Planned(s: Setting, m: Manifest, files: seq<ImportFile>, records: seq<Record>) {
    AllFit(s, files, records) && forall k :: 0 <= k < |records| ==> Plan(m, records, k)
  }

  // ----- what the receipt binds --------------------------------------------------------------

  function ProtocolText(p: Option<Protocol>): string {
    match p case None => "" case Some(protocol) => if protocol == WireGuard then "wireguard" else "openvpn"
  }

  function DispositionText(d: Disposition): string {
    match d case Undecided => "" case New => "new" case AlreadyImported => "already_imported"
  }

  function OverrideText(o: Override): string {
    match o case NoOverride => "" case Chosen(p) => ProtocolText(Some(p)) case Unknown => "?"
  }

  function BoundOf(s: Setting, r: Record): R.Bound {
    R.Bound(r.ordinal, [
      s.hex(r.digest), s.utf8(r.id), s.utf8(ProtocolText(r.protocol)), s.utf8(r.identifier),
      s.utf8(DispositionText(r.disposition)), s.hex(r.key), s.utf8(OverrideText(r.override))])
  }

  function BoundsOf(s: Setting, records: seq<Record>): (bounds: seq<R.Bound>)
    ensures |bounds| == |records| && forall k :: 0 <= k < |records| ==> bounds[k] == BoundOf(s, records[k])
  {
    seq(|records|, k requires 0 <= k < |records| => BoundOf(s, records[k]))
  }

  lemma TextsDiffer()
    ensures forall a: Option<Protocol>, b :: ProtocolText(a) == ProtocolText(b) ==> a == b
    ensures forall a: Disposition, b :: DispositionText(a) == DispositionText(b) ==> a == b
    ensures forall a: Override, b :: OverrideText(a) == OverrideText(b) ==> a == b
  {
    assert |"wireguard"| == 9 && |"openvpn"| == 7 && |"new"| == 3 && |"already_imported"| == 16 && |"?"| == 1;
  }

  /** Records without issues are determined by what the receipt binds of them. */
  lemma BoundInjective(s: Setting, a: Record, b: Record)
    requires Usual(s) && BoundOf(s, a) == BoundOf(s, b) && a.issues == b.issues
    ensures a == b
  {
    TextsDiffer();
    var x, y := BoundOf(s, a).fields, BoundOf(s, b).fields;
    assert x[0] == y[0] && x[1] == y[1] && x[2] == y[2] && x[3] == y[3] && x[4] == y[4] && x[5] == y[5] && x[6] == y[6];
  }

  lemma WritableBound(s: Setting, r: Record)
    requires Usual(s) && Small(r.digest) && Small(r.key) && |r.id| <= 64
    requires |r.identifier| <= 64 && 0 <= r.ordinal < MAX_FILES
    ensures R.Writable(BoundOf(s, r))
  {
    TextSizes();
  }

  lemma FitsWritable(s: Setting, file: ImportFile, ordinal: nat, record: Record)
    requires Usual(s) && Fits(s, file, ordinal, record) && P.RightSize(file.bytes) && ordinal < MAX_FILES
    ensures R.Writable(BoundOf(s, record))
  {
    WritableBound(s, record);
  }

  lemma TextSizes()
    ensures forall p :: |ProtocolText(p)| <= 64
    ensures forall d :: |DispositionText(d)| <= 64
    ensures forall o :: |OverrideText(o)| <= 64
  {
    assert |"wireguard"| == 9 && |"openvpn"| == 7 && |"new"| == 3 && |"already_imported"| == 16 && |"?"| == 1;
  }
}
