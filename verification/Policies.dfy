/** The two import policies (internal/profiles/openvpn_policy.go, wireguard_policy.go) over code
    points, and the proof that no text passes both. Unicode case mapping and the parsers of the
    standard library (addresses, endpoints, keys) are parameters. */
module Policies {
  import opened Contracts
  import opened Text
  import opened Library
  import opened ConfigText

  const MAX_LINE := 0x4000
  const MAX_BLOCK := 0x4_0000
  const MAX_PEERS := 32

  /** What the OpenVPN policy consults: unicode.ToLower, strings.EqualFold and its tables. */
  datatype Rules = Rules(
    lower: char -> char, equalFold: (string, string) -> bool,
    denied: set<string>, inlined: set<string>, arguments: string -> Option<(nat, nat)>)

  /** The tables of the policy. */
  function PolicyRules(lower: char -> char, equalFold: (string, string) -> bool): Rules {
    Rules(lower, equalFold, DENIED, INLINE_BLOCKS, Arguments)
  }

  /** What is assumed of the case mapping: exact on ASCII, and white space has no case. */
  ghost predicate SaneCase(lower: char -> char) {
    && (forall c: char :: 'A' <= c <= 'Z' ==> lower(c) == c - 'A' + 'a')
    && (forall c: char :: c < '\U{80}' && !('A' <= c <= 'Z') ==> lower(c) == c)
    && (forall c: char :: IsSpace(c) ==> lower(c) == c)
  }

  predicate Lettered(s: string) {
    s != "" && 'a' <= s[0] <= 'z'
  }

  /** Every directive named in a table begins with a letter. */
  ghost predicate Sane(r: Rules) {
    && SaneCase(r.lower)
    && (forall d :: d in r.denied ==> Lettered(d))
    && (forall d :: d in r.inlined ==> Lettered(d))
    && (forall d :: r.arguments(d).Some? ==> Lettered(d))
  }

  function Lower(lower: char -> char, s: string): (t: string)
    ensures |t| == |s| && forall k :: 0 <= k < |s| ==> t[k] == lower(s[k])
  {
    seq(|s|, k requires 0 <= k < |s| => lower(s[k]))
  }

  predicate Forbidden(c: char) {
    IsControl(c) && c != '\t'
  }

  predicate CleanLine(line: string) {
    ByteLength(line) <= MAX_LINE && forall k :: 0 <= k < |line| ==> !Forbidden(line[k])
  }

  predicate RightSize(text: string) {
    0 < ByteLength(text) <= MAX_PROFILE_BYTES
  }

  /** The first position of a character, or the length. */
  function Position(s: string, c: char): (n: nat)
    ensures n <= |s| && (n < |s| ==> s[n] == c) && forall k :: 0 <= k < n ==> s[k] != c
  {
    if s == "" || s[0] == c then 0 else 1 + Position(s[1..], c)
  }

  // ----- the OpenVPN policy ------------------------------------------------------------------

  const INLINE_BLOCKS := {"ca", "cert", "key", "tls-auth", "tls-crypt", "tls-crypt-v2"}

  /** The directives of the policy by the number of arguments they take. */
  function Arguments(directive: string): Option<(nat, nat)> {
    if directive in {
      "allow-pull-fqdn", "auth-nocache", "client", "fast-io", "mute-replay-warnings", "nobind",
      "persist-key", "persist-tun", "pull", "remote-random", "remote-random-hostname", "route-nopull",
      "tcp-nodelay", "tls-client", "tls-exit"}
      then Some((0, 0))
    else if directive in {
      "comp-lzo", "compress", "explicit-exit-notify"}
      then Some((0, 1))
    else if directive in {
      "mssfix", "route-delay"}
      then Some((0, 2))
    else if directive in {
      "redirect-gateway", "redirect-private"}
      then Some((0, 8))
    else if directive in {
      "allow-compression", "auth", "auth-retry", "cipher", "connect-retry-max", "connect-timeout",
      "data-ciphers", "data-ciphers-fallback", "dev", "dev-type", "hand-window", "key-direction",
      "link-mtu", "ns-cert-type", "ping", "ping-exit", "ping-restart", "peer-fingerprint", "proto",
      "rcvbuf", "remote-cert-tls", "reneg-sec", "resolv-retry", "route-gateway", "route-metric", "sndbuf",
      "tls-cipher", "tls-ciphersuites", "topology", "tran-window", "tun-mtu", "tun-mtu-extra"}
      then Some((1, 1))
    else if directive in {
      "connect-retry", "inactive", "route-ipv6", "tls-version-max", "tls-version-min", "verify-x509-name"}
      then Some((1, 2))
    else if directive in {
      "remote"}
      then Some((1, 3))
    else if directive in {
      "route"}
      then Some((1, 4))
    else if directive in {
      "remote-cert-ku", "socket-flags"}
      then Some((1, 8))
    else if directive in {
      "keepalive", "pull-filter"}
      then Some((2, 2))
    else if directive in {
      "dhcp-option"}
      then Some((2, 3))
    else None
  }

  const DENIED := {
    "askpass", "auth-gen-token", "auth-gen-token-secret", "auth-user-pass", "auth-user-pass-verify", "cd",
    "chroot", "client-connect", "client-crresponse", "client-disconnect", "config", "daemon", "down", "down-pre",
    "group", "http-proxy-user-pass", "ipchange", "learn-address", "log", "log-append", "management",
    "management-client", "management-external-key", "management-hold", "management-query-passwords",
    "management-signal", "machine-readable-output", "plugin", "route-up", "script-security", "secret",
    "setenv-safe", "socks-proxy", "status", "status-version", "syslog", "tls-verify", "tmp-dir", "up", "up-delay",
    "up-restart", "user", "verb", "writepid"}

  lemma NamedLettered(d: string)
    requires d in DENIED || d in INLINE_BLOCKS
    ensures Lettered(d)
  {
  }

  lemma ArgumentsLettered(d: string)
    requires Arguments(d).Some?
    ensures Lettered(d)
  {
  }

  lemma PolicyRulesSane(lower: char -> char, equalFold: (string, string) -> bool)
    requires SaneCase(lower)
    ensures Sane(PolicyRules(lower, equalFold))
  {
    forall d | d in DENIED || d in INLINE_BLOCKS ensures Lettered(d) { NamedLettered(d); }
    forall d | Arguments(d).Some? ensures Lettered(d) { ArgumentsLettered(d); }
  }

  function TrimDashes(s: string): string {
    if s != "" && s[0] == '-' then TrimDashes(s[1..]) else s
  }

  /** validateOpenVPNDirective: Some("") for a line without tokens. */
  function Directive(r: Rules, line: string): Option<string> {
    match Tokenize(line)
    case Dangling => None
    case Unclosed => None
    case Tokens(tokens) =>
      if tokens == [] then Some("")
      else
        var directive := Lower(r.lower, TrimDashes(tokens[0]));
        if directive in r.denied || "management-" <= directive then None
        else if directive in r.inlined then
          if |tokens| == 2 && Lower(r.lower, tokens[1]) == "[inline]" then Some(directive) else None
        else
          match r.arguments(directive)
          case None => None
          case Some(bounds) => if bounds.0 <= |tokens| - 1 <= bounds.1 then Some(directive) else None
  }

  datatype Delimiter = NoDelimiter | Opening(name: string) | Closing

  /** openVPNBlockDelimiter. */
  function BlockDelimiter(lower: char -> char, line: string): Delimiter {
    if |line| < 3 || line[0] != '<' || line[|line| - 1] != '>' then NoDelimiter
    else
      var content := TrimSpace(line[1..|line| - 1]);
      if "/" <= content then
        if Lower(lower, TrimSpace(TrimPrefix(content, "/"))) != "" then Closing else NoDelimiter
      else if content != "" then Opening(Lower(lower, content))
      else NoDelimiter
  }

  /** What ValidateOpenVPNImport remembers between physical lines; block is empty outside blocks. */
  datatype Reader = Reader(
    logical: string, block: string, blockBytes: nat, seenBlocks: set<string>, seenClient: bool, seenRemote: bool)

  const START := Reader("", "", 0, {}, false, false)

  function ReadBlockLine(r: Rules, s: Reader, line: string): Option<Reader> {
    var trimmed := TrimSpace(line);
    if r.equalFold(trimmed, "</" + s.block + ">") then
      Some(s.(seenBlocks := s.seenBlocks + {s.block}, block := "", blockBytes := 0))
    else if "<" <= trimmed && HasSuffix(trimmed, ">") then None
    else
      var bytes := s.blockBytes + ByteLength(line) + 1;
      if bytes > MAX_BLOCK then None else Some(s.(blockBytes := bytes))
  }

  /** A complete logical line. */
  function ReadDirective(r: Rules, s: Reader, logical: string): Option<Reader> {
    if ByteLength(logical) > MAX_LINE then None
    else
      match Directive(r, logical)
      case None => None
      case Some(directive) =>
        Some(s.(logical := "",
                seenClient := s.seenClient || directive == "client" || directive == "tls-client",
                seenRemote := s.seenRemote || directive == "remote"))
  }

  function ReadFragment(r: Rules, s: Reader, line: string): Option<Reader> {
    match Continues(line)
    case Unterminated => None
    case ControlCharacter => None
    case Continued(fragment) =>
      var logical := s.logical + fragment;
      if ByteLength(logical) > MAX_LINE then None else Some(s.(logical := logical))
    case Complete(content) => ReadDirective(r, s, s.logical + content)
  }

  /** One physical line; None is a refusal. */
  function ReadLine(r: Rules, s: Reader, line: string): Option<Reader> {
    if !CleanLine(line) then None
    else if s.block != "" then ReadBlockLine(r, s, line)
    else
      match BlockDelimiter(r.lower, TrimSpace(line))
      case Closing => None
      case Opening(name) => if name !in r.inlined || name in s.seenBlocks then None else Some(s.(block := name))
      case NoDelimiter => ReadFragment(r, s, line)
  }

  function ReadLines(r: Rules, s: Reader, lines: seq<string>): Option<Reader>
    decreases |lines|
  {
    if lines == [] then Some(s)
    else
      match ReadLine(r, s, lines[0])
      case None => None
      case Some(next) => ReadLines(r, next, lines[1..])
  }

  predicate Finished(s: Reader) {
    s.block == "" && s.logical == "" && s.seenClient && s.seenRemote
  }

  /** The physical lines, less their line ends; an empty last line does not count. */
  function PhysicalLines(text: string): seq<string>
    decreases |text|
  {
    var n := Position(text, '\n');
    if text == "" then []
    else if n == |text| then [TrimSuffix(text, "\r")]
    else [TrimSuffix(text[..n], "\r")] + PhysicalLines(text[n + 1..])
  }

  predicate OpenVPNAccepts(r: Rules, text: string) {
    && RightSize(text)
    && var end := ReadLines(r, START, PhysicalLines(text));
       end.Some? && Finished(end.value)
  }

  /** Reading a text is reading its first line and then the rest. */
  lemma ReadFirst(r: Rules, s: Reader, text: string)
    requires text != ""
    ensures var n := Position(text, '\n');
      var next := ReadLine(r, s, TrimSuffix(text[..n], "\r"));
      ReadLines(r, s, PhysicalLines(text)) ==
        if next.None? then None else ReadLines(r, next.value, PhysicalLines(if n == |text| then "" else text[n + 1..]))
  {
    var n := Position(text, '\n');
    assert n == |text| ==> text[..n] == text;
  }

  /** ValidateOpenVPNImport: reads the text one physical line at a time. */
  method ValidateOpenVPNImport(r: Rules, text: string) returns (ok: bool)
    ensures ok == OpenVPNAccepts(r, text)
  {
    if !(0 < ByteLength(text) <= MAX_PROFILE_BYTES) { return false; }
    var rest, s := text, START;
    while rest != ""
      invariant ReadLines(r, START, PhysicalLines(text)) == ReadLines(r, s, PhysicalLines(rest))
      decreases |rest|
    {
      ReadFirst(r, s, rest);
      var n := Position(rest, '\n');
      var physical := TrimSuffix(rest[..n], "\r");
      rest := if n == |rest| then "" else rest[n + 1..];
      var next := ReadLine(r, s, physical);
      if next.None? { return false; }
      s := next.value;
    }
    ok := s.block == "" && s.logical == "" && s.seenClient && s.seenRemote;
  }

  // ----- the WireGuard policy ----------------------------------------------------------------

  /** A section: its kind and its values by key. */
  datatype Section = Section(kind: string, values: map<string, seq<string>>)

  /** The value parsers of the standard library, and the digest of the public key of a private one. */
  datatype Formats = Formats(
    lower: char -> char, key: string -> bool, prefix: string -> bool, address: string -> bool,
    endpoint: string -> bool, identity: string -> Digest)

  const HOOKS := {"preup", "postup", "predown", "postdown", "saveconfig"}
  const INTERFACE_KEYS := {"address", "dns", "listenport", "mtu", "privatekey", "table"}
  const PEER_KEYS := {"allowedips", "endpoint", "persistentkeepalive", "presharedkey", "publickey"}

  function Values(s: Section, key: string): seq<string> {
    if key in s.values then s.values[key] else []
  }

  function SingleValue(s: Section, key: string): string {
    if |Values(s, key)| == 1 then Values(s, key)[0] else ""
  }

  function Split(s: string, c: char): (parts: seq<string>)
    ensures parts != []
    decreases |s|
  {
    var n := Position(s, c);
    if n == |s| then [s] else [s[..n]] + Split(s[n + 1..], c)
  }

  /** strings.ReplaceAll of CRLF by LF. */
  function Unix(text: string): string
    decreases |text|
  {
    if |text| >= 2 && text[0] == '\r' && text[1] == '\n' then "\n" + Unix(text[2..])
    else if text == "" then ""
    else [text[0]] + Unix(text[1..])
  }

  function RawLines(text: string): seq<string> {
    Split(Unix(text), '\n')
  }

  /** strings.Cut at the comment mark, trimmed. */
  function Uncommented(raw: string): string {
    TrimSpace(raw[..Position(raw, '#')])
  }

  function HeaderLine(lower: char -> char, sections: seq<Section>, line: string): Option<seq<Section>> {
    if !HasSuffix(line, "]") then None
    else
      var kind := Lower(lower, TrimSpace(TrimSuffix(TrimPrefix(line, "["), "]")));
      if kind != "interface" && kind != "peer" then None
      else if kind == "interface" && sections != [] then None
      else Some(sections + [Section(kind, map[])])
  }

  function ValueLine(lower: char -> char, sections: seq<Section>, line: string): Option<seq<Section>>
    requires sections != []
  {
    var n := Position(line, '=');
    var current := sections[|sections| - 1];
    if n == |line| then None
    else
      var key, value := Lower(lower, TrimSpace(line[..n])), TrimSpace(line[n + 1..]);
      if key == "" || value == "" || key in HOOKS then None
      else if key !in (if current.kind == "peer" then PEER_KEYS else INTERFACE_KEYS) then None
      else if Values(current, key) != [] && key != "address" && key != "dns" then None
      else
        var values := current.values[key := Values(current, key) + [value]];
        Some(sections[..|sections| - 1] + [current.(values := values)])
  }

  /** One raw line of parseWireGuardSections; None is a refusal. */
  function ParseLine(lower: char -> char, sections: seq<Section>, raw: string): Option<seq<Section>> {
    if !CleanLine(raw) then None
    else
      var line := Uncommented(raw);
      if line == "" then Some(sections)
      else if line[0] == '[' then HeaderLine(lower, sections, line)
      else if sections == [] then None
      else ValueLine(lower, sections, line)
  }

  function ParseLines(lower: char -> char, sections: seq<Section>, lines: seq<string>): Option<seq<Section>>
    decreases |lines|
  {
    if lines == [] then Some(sections)
    else
      match ParseLine(lower, sections, lines[0])
      case None => None
      case Some(next) => ParseLines(lower, next, lines[1..])
  }

  /** parseWireGuardSections. */
  method ParseSections(lower: char -> char, text: string) returns (result: Option<seq<Section>>)
    ensures result == ParseLines(lower, [], RawLines(text))
  {
    var lines, sections := RawLines(text), [];
    for k := 0 to |lines|
      invariant ParseLines(lower, [], lines) == ParseLines(lower, sections, lines[k..])
    {
      assert lines[k..][0] == lines[k] && lines[k..][1..] == lines[k + 1..];
      var next := ParseLine(lower, sections, lines[k]);
      if next.None? { return None; }
      sections := next.value;
    }
    result := Some(sections);
  }

  function Join(parts: seq<string>, c: char): string {
    if parts == [] then "" else if |parts| == 1 then parts[0] else parts[0] + [c] + Join(parts[1..], c)
  }

  /** The parts are the text cut at every separator and nowhere else. */
  lemma {:induction false} SplitExact(s: string, c: char)
    ensures Join(Split(s, c), c) == s
    ensures forall k :: 0 <= k < |Split(s, c)| ==> c !in Split(s, c)[k]
    decreases |s|
  {
    var n := Position(s, c);
    if n < |s| {
      SplitExact(s[n + 1..], c);
      assert s == s[..n] + [c] + s[n + 1..];
      assert Split(s, c)[1..] == Split(s[n + 1..], c);
    }
  }

  predicate Increasing(at: seq<nat>) {
    forall i, j :: 0 <= i < j < |at| ==> at[i] < at[j]
  }

  /** The items are, in order, the parts that are not blank, each of them trimmed; they stand at these
      positions. */
  ghost predicate Picked(parts: seq<string>, items: seq<string>, at: seq<nat>) {
    && |items| == |at| && Increasing(at)
    && (forall k :: 0 <= k < |at| ==> at[k] < |parts| && items[k] == TrimSpace(parts[at[k]]) && items[k] != "")
    && (forall i :: 0 <= i < |parts| && TrimSpace(parts[i]) != "" ==> i in at)
  }

  lemma PickedFurther(parts: seq<string>, k: nat, items: seq<string>, at: seq<nat>)
    requires k < |parts| && Picked(parts[..k], items, at)
    ensures var part := TrimSpace(parts[k]);
      if part == "" then Picked(parts[..k + 1], items, at) else Picked(parts[..k + 1], items + [part], at + [k])
  {
    var longer := at + [k];
    forall i | 0 <= i < k && TrimSpace(parts[i]) != "" ensures i in at && i in longer {
      assert parts[..k][i] == parts[i];
    }
    assert longer[|at|] == k;
  }

  /** splitList: exactly the trimmed parts between commas that are not blank, in order. */
  method SplitList(value: string) returns (result: seq<string>)
    ensures exists at :: Picked(Split(value, ','), result, at)
  {
    var parts := Split(value, ',');
    ghost var at: seq<nat> := [];
    result := [];
    for k := 0 to |parts|
      invariant Picked(parts[..k], result, at)
    {
      PickedFurther(parts, k, result, at);
      var part := TrimSpace(parts[k]);
      if part != "" { result, at := result + [part], at + [k]; }
    }
    assert parts[..|parts|] == parts;
  }

  /** Every part that is not blank passes. */
  predicate EveryItem(value: string, pass: string -> bool) {
    var parts := Split(value, ',');
    forall k :: 0 <= k < |parts| && TrimSpace(parts[k]) != "" ==> pass(TrimSpace(parts[k]))
  }

  predicate SomeItem(value: string) {
    var parts := Split(value, ',');
    exists k :: 0 <= k < |parts| && TrimSpace(parts[k]) != ""
  }

  predicate ValidPrefixes(f: Formats, value: string) {
    SomeItem(value) && EveryItem(value, f.prefix)
  }

  /** The items pass exactly when every part that is not blank does. */
  lemma PickedPasses(value: string, items: seq<string>, at: seq<nat>, pass: string -> bool)
    requires Picked(Split(value, ','), items, at)
    ensures items != [] <==> SomeItem(value)
    ensures (forall k :: 0 <= k < |items| ==> pass(items[k])) <==> EveryItem(value, pass)
  {
    var parts := Split(value, ',');
    if items != [] { assert TrimSpace(parts[at[0]]) != ""; }
    forall k | 0 <= k < |items| && EveryItem(value, pass) ensures pass(items[k]) {
      assert TrimSpace(parts[at[k]]) == items[k];
    }
    forall i | 0 <= i < |parts| && TrimSpace(parts[i]) != ""
      ensures exists k :: 0 <= k < |items| && items[k] == TrimSpace(parts[i])
    {
      var k :| 0 <= k < |at| && at[k] == i;
      assert items[k] == TrimSpace(parts[i]);
    }
  }

  lemma ListPasses(value: string, items: seq<string>, pass: string -> bool)
    requires exists at :: Picked(Split(value, ','), items, at)
    ensures items != [] <==> SomeItem(value)
    ensures (forall k :: 0 <= k < |items| ==> pass(items[k])) <==> EveryItem(value, pass)
  {
    var at :| Picked(Split(value, ','), items, at);
    PickedPasses(value, items, at, pass);
  }

  method CheckEach(items: seq<string>, pass: string -> bool) returns (ok: bool)
    ensures ok == forall k :: 0 <= k < |items| ==> pass(items[k])
  {
    for k := 0 to |items|
      invariant forall j :: 0 <= j < k ==> pass(items[j])
    {
      if !pass(items[k]) { return false; }
    }
    ok := true;
  }

  /** The items of a list, and whether each of them passes. */
  method CheckItems(value: string, pass: string -> bool) returns (ok: bool, some: bool)
    ensures some == SomeItem(value)
    ensures ok == EveryItem(value, pass)
  {
    var items := SplitList(value);
    ListPasses(value, items, pass);
    some := items != [];
    ok := CheckEach(items, pass);
  }

  /** validatePrefixList. */
  method CheckPrefixes(f: Formats, value: string) returns (ok: bool)
    ensures ok == ValidPrefixes(f, value)
  {
    var some;
    ok, some := CheckItems(value, f.prefix);
    ok := ok && some;
  }

  function Decimal(value: string): Option<nat> {
    if value == "" then None
    else
      var c := value[|value| - 1];
      if !('0' <= c <= '9') then None
      else if |value| == 1 then Some(c as int - '0' as int)
      else
        match Decimal(value[..|value| - 1])
        case None => None
        case Some(n) => Some(10 * n + c as int - '0' as int)
  }

  predicate InRange(value: string, low: nat, high: nat) {
    Decimal(value).Some? && low <= Decimal(value).value <= high
  }

  predicate ValidInterface(f: Formats, s: Section) {
    && |Values(s, "privatekey")| == 1 && Values(s, "address") != []
    && f.key(SingleValue(s, "privatekey"))
    && (forall k :: 0 <= k < |Values(s, "address")| ==> ValidPrefixes(f, Values(s, "address")[k]))
    && (forall k :: 0 <= k < |Values(s, "dns")| ==> EveryItem(Values(s, "dns")[k], f.address))
    && (SingleValue(s, "listenport") != "" ==> InRange(SingleValue(s, "listenport"), 1, 65535))
    && (SingleValue(s, "mtu") != "" ==> InRange(SingleValue(s, "mtu"), 576, 65535))
    && var table := Lower(f.lower, SingleValue(s, "table"));
       table == "" || table == "auto" || table == "off" || InRange(table, 1, 0xFFFF_FFFF)
  }

  predicate ValidPeer(f: Formats, s: Section) {
    && |Values(s, "publickey")| == 1 && |Values(s, "endpoint")| == 1 && |Values(s, "allowedips")| == 1
    && f.key(SingleValue(s, "publickey"))
    && (SingleValue(s, "presharedkey") != "" ==> f.key(SingleValue(s, "presharedkey")))
    && ValidPrefixes(f, SingleValue(s, "allowedips"))
    && f.endpoint(SingleValue(s, "endpoint"))
    && (SingleValue(s, "persistentkeepalive") != "" ==> InRange(SingleValue(s, "persistentkeepalive"), 0, 65535))
  }

  predicate PeerAt(f: Formats, sections: seq<Section>, k: nat) {
    k < |sections| && sections[k].kind == "peer" && ValidPeer(f, sections[k])
  }

  predicate AllPeers(f: Formats, sections: seq<Section>) {
    forall k :: 1 <= k < |sections| ==> PeerAt(f, sections, k)
  }

  predicate ValidSections(f: Formats, sections: seq<Section>) {
    && 2 <= |sections| <= MAX_PEERS + 1
    && sections[0].kind == "interface" && ValidInterface(f, sections[0])
    && AllPeers(f, sections)
  }

  /** ValidateWireGuardImport: Some carries the digest of the public key. */
  function WireGuardAccepts(f: Formats, text: string): Option<Digest> {
    if !RightSize(text) then None
    else
      match ParseLines(f.lower, [], RawLines(text))
      case None => None
      case Some(sections) =>
        if ValidSections(f, sections) then Some(f.identity(SingleValue(sections[0], "privatekey"))) else None
  }

  method CheckAddresses(f: Formats, values: seq<string>) returns (ok: bool)
    ensures ok == forall k :: 0 <= k < |values| ==> ValidPrefixes(f, values[k])
  {
    for k := 0 to |values|
      invariant forall j :: 0 <= j < k ==> ValidPrefixes(f, values[j])
    {
      ok := CheckPrefixes(f, values[k]);
      if !ok { return; }
    }
    ok := true;
  }

  method CheckServers(f: Formats, values: seq<string>) returns (ok: bool)
    ensures ok == forall k :: 0 <= k < |values| ==> EveryItem(values[k], f.address)
  {
    for k := 0 to |values|
      invariant forall j :: 0 <= j < k ==> EveryItem(values[j], f.address)
    {
      var some;
      ok, some := CheckItems(values[k], f.address);
      if !ok { return; }
    }
    ok := true;
  }

  /** validateWireGuardInterface. */
  method CheckInterface(f: Formats, s: Section) returns (ok: bool)
    ensures ok == ValidInterface(f, s)
  {
    if |Values(s, "privatekey")| != 1 || Values(s, "address") == [] { return false; }
    if !f.key(SingleValue(s, "privatekey")) { return false; }
    ok := CheckAddresses(f, Values(s, "address"));
    if !ok { return; }
    ok := CheckServers(f, Values(s, "dns"));
    if !ok { return; }
    var port, mtu := SingleValue(s, "listenport"), SingleValue(s, "mtu");
    if port != "" && !InRange(port, 1, 65535) { return false; }
    if mtu != "" && !InRange(mtu, 576, 65535) { return false; }
    var table := Lower(f.lower, SingleValue(s, "table"));
    ok := table == "" || table == "auto" || table == "off" || InRange(table, 1, 0xFFFF_FFFF);
  }

  /** validateWireGuardPeer. */
  method CheckPeer(f: Formats, s: Section) returns (ok: bool)
    ensures ok == ValidPeer(f, s)
  {
    if |Values(s, "publickey")| != 1 || |Values(s, "endpoint")| != 1 || |Values(s, "allowedips")| != 1 { return false; }
    if !f.key(SingleValue(s, "publickey")) { return false; }
    var shared := SingleValue(s, "presharedkey");
    if shared != "" && !f.key(shared) { return false; }
    ok := CheckPrefixes(f, SingleValue(s, "allowedips"));
    if !ok || !f.endpoint(SingleValue(s, "endpoint")) { return false; }
    var keepalive := SingleValue(s, "persistentkeepalive");
    ok := keepalive == "" || InRange(keepalive, 0, 65535);
  }

  method CheckPeerAt(f: Formats, sections: seq<Section>, k: nat) returns (ok: bool)
    requires k < |sections|
    ensures ok == PeerAt(f, sections, k)
  {
    if sections[k].kind != "peer" { return false; }
    ok := CheckPeer(f, sections[k]);
  }

  method CheckPeers(f: Formats, sections: seq<Section>) returns (ok: bool)
    requires sections != []
    ensures ok == AllPeers(f, sections)
  {
    for k := 1 to |sections|
      invariant forall j :: 1 <= j < k ==> PeerAt(f, sections, j)
    {
      ok := CheckPeerAt(f, sections, k);
      if !ok { return; }
    }
    ok := true;
  }

  method CheckSections(f: Formats, sections: seq<Section>) returns (ok: bool)
    ensures ok == ValidSections(f, sections)
  {
    if |sections| < 2 || sections[0].kind != "interface" || |sections| - 1 > MAX_PEERS { return false; }
    ok := CheckInterface(f, sections[0]);
    if ok { ok := CheckPeers(f, sections); }
  }

  /** ValidateWireGuardImport. */
  method ValidateWireGuardImport(f: Formats, text: string) returns (identity: Option<Digest>)
    ensures identity == WireGuardAccepts(f, text)
  {
    if !(0 < ByteLength(text) <= MAX_PROFILE_BYTES) { return None; }
    var parsed := ParseSections(f.lower, text);
    if parsed.None? { return None; }
    var ok := CheckSections(f, parsed.value);
    if !ok { return None; }
    identity := Some(f.identity(SingleValue(parsed.value[0], "privatekey")));
  }
}
