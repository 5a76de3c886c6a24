/** What the OpenVPN import policy accepts (internal/profiles/openvpn_policy.go), said of the text as a
    whole: how it falls apart into inline blocks and directives, and what each of them must be. The
    line by line reader of Policies accepts a text exactly when it can be read in this way. */
module Directives {
  import opened Contracts
  import opened Text
  import opened Library
  import opened ConfigText
  import opened Policies
  import opened Detection

  // ----- lines outside inline blocks ---------------------------------------------------------

  /** The line, less the spaces around it, is in angle brackets; inner is what they enclose. */
  ghost predicate Angled(line: string, inner: string) {
    exists x: string :: TrimSpace(line) == "<" + x + ">" && inner == TrimSpace(x)
  }

  ghost predicate Opens(lower: char -> char, line: string, name: string) {
    exists inner :: Angled(line, inner) && inner != "" && inner[0] != '/' && name == Lower(lower, inner)
  }

  ghost predicate Closes(line: string) {
    exists inner :: Angled(line, inner) && inner != "" && inner[0] == '/' && TrimSpace(inner[1..]) != ""
  }

  /** No delimiter of an inline block. */
  ghost predicate Plain(lower: char -> char, line: string) {
    !Closes(line) && forall name :: !Opens(lower, line, name)
  }

  /** The line ends in an escaping backslash, outside comments. */
  predicate Continuing(line: string) {
    Tokenize(line).Dangling?
  }

  /** The line ends a directive: no quote is left open. */
  predicate Ending(line: string) {
    Tokenize(line).Tokens?
  }

  /** What a line adds to its directive: all but the continuing backslash, or all but the comment. */
  function TextOf(line: string): string {
    if Continuing(line) && line != "" then line[..|line| - 1] else Content(line)
  }

  function Logical(lines: seq<string>): string {
    if lines == [] then "" else Logical(lines[..|lines| - 1]) + TextOf(lines[|lines| - 1])
  }

  predicate AllContinuing(lines: seq<string>) {
    forall k :: 0 <= k < |lines| ==> Continuing(lines[k])
  }

  /** The lines of one directive: all but the last continue. */
  predicate Whole(group: seq<string>) {
    && group != []
    && AllContinuing(group[..|group| - 1])
    && Ending(group[|group| - 1])
    && ByteLength(Logical(group)) <= MAX_LINE
  }

  // ----- directives --------------------------------------------------------------------------

  predicate DashesUpTo(token: string, n: nat) {
    && n <= |token| && (n < |token| ==> token[n] != '-')
    && forall k :: 0 <= k < n ==> token[k] == '-'
  }

  /** The name that a first token gives: less its leading dashes, in lower case. */
  ghost predicate Names(lower: char -> char, token: string, name: string) {
    exists n: nat :: DashesUpTo(token, n) && name == Lower(lower, token[n..])
  }

  /** An inline name may only refer to its block; any other name is in the table with its arguments. */
  ghost predicate Argued(r: Rules, name: string, arguments: seq<string>) {
    if name in r.inlined then |arguments| == 1 && Lower(r.lower, arguments[0]) == "[inline]"
    else exists low, high :: r.arguments(name) == Some((low, high)) && low <= |arguments| <= high
  }

  ghost predicate PermittedTokens(r: Rules, tokens: seq<string>) {
    tokens != [] ==>
      exists name :: Names(r.lower, tokens[0], name) && name !in r.denied && !("management-" <= name)
                     && Argued(r, name, tokens[1..])
  }

  /** The text of a directive is permitted: it may be blank. */
  ghost predicate Permitted(r: Rules, logical: string) {
    exists tokens :: Tokenize(logical) == Tokens(tokens) && PermittedTokens(r, tokens)
  }

  ghost predicate Says(r: Rules, logical: string, name: string) {
    exists tokens :: Tokenize(logical) == Tokens(tokens) && tokens != [] && Names(r.lower, tokens[0], name)
  }

  // ----- readings ----------------------------------------------------------------------------

  /** A line outside inline blocks, or an inline block. */
  datatype Piece =
    | Outside(line: string)
    | Block(name: string, opening: string, body: seq<string>, closing: string)

  /** An inline block that is not closed yet. */
  datatype Unclosed = Nothing | Started(name: string, opening: string, body: seq<string>)

  /** A reading of lines: the pieces they make up, an unclosed block, and the directives that the lines
      outside blocks make up, with what is left of them. */
  datatype Reading = Reading(pieces: seq<Piece>, open: Unclosed, groups: seq<seq<string>>, rest: seq<string>)

  function LinesOf(piece: Piece): seq<string> {
    match piece
    case Outside(line) => [line]
    case Block(_, opening, body, closing) => [opening] + body + [closing]
  }

  function Flat(pieces: seq<Piece>): seq<string> {
    if pieces == [] then [] else Flat(pieces[..|pieces| - 1]) + LinesOf(pieces[|pieces| - 1])
  }

  function StartedLines(open: Unclosed): seq<string> {
    match open
    case Nothing => []
    case Started(_, opening, body) => [opening] + body
  }

  /** The lines outside blocks. */
  function OutsideLines(pieces: seq<Piece>): seq<string> {
    if pieces == [] then []
    else
      var before, last := OutsideLines(pieces[..|pieces| - 1]), pieces[|pieces| - 1];
      if last.Outside? then before + [last.line] else before
  }

  function Concat(groups: seq<seq<string>>): seq<string> {
    if groups == [] then [] else Concat(groups[..|groups| - 1]) + groups[|groups| - 1]
  }

  function BlockNames(pieces: seq<Piece>): set<string> {
    set k | 0 <= k < |pieces| && pieces[k].Block? :: pieces[k].name
  }

  function BodyBytes(body: seq<string>): nat {
    if body == [] then 0 else BodyBytes(body[..|body| - 1]) + ByteLength(body[|body| - 1]) + 1
  }

  ghost predicate ClosesBlock(r: Rules, name: string, line: string) {
    r.equalFold(TrimSpace(line), "</" + name + ">")
  }

  /** A line of a block's body: it does not close the block and is not in angle brackets. */
  ghost predicate InBody(r: Rules, name: string, line: string) {
    var t := TrimSpace(line);
    !ClosesBlock(r, name, line) && !(t != "" && t[0] == '<' && t[|t| - 1] == '>')
  }

  ghost predicate GoodBody(r: Rules, name: string, opening: string, body: seq<string>) {
    && Opens(r.lower, opening, name) && name in r.inlined
    && (forall k :: 0 <= k < |body| ==> InBody(r, name, body[k]))
    && BodyBytes(body) <= MAX_BLOCK
  }

  ghost predicate GoodPiece(r: Rules, piece: Piece) {
    match piece
    case Outside(line) => Plain(r.lower, line)
    case Block(name, opening, body, closing) => GoodBody(r, name, opening, body) && ClosesBlock(r, name, closing)
  }

  ghost predicate GoodPieces(r: Rules, pieces: seq<Piece>) {
    && (forall k :: 0 <= k < |pieces| ==> GoodPiece(r, pieces[k]))
    && forall j, k :: 0 <= j < k < |pieces| && pieces[j].Block? && pieces[k].Block? ==> pieces[j].name != pieces[k].name
  }

  ghost predicate GoodOpen(r: Rules, pieces: seq<Piece>, open: Unclosed) {
    match open
    case Nothing => true
    case Started(name, opening, body) => GoodBody(r, name, opening, body) && name !in BlockNames(pieces)
  }

  ghost predicate GoodGroups(r: Rules, groups: seq<seq<string>>) {
    forall k :: 0 <= k < |groups| ==> Whole(groups[k]) && Permitted(r, Logical(groups[k]))
  }

  ghost predicate GoodRest(rest: seq<string>) {
    AllContinuing(rest) && ByteLength(Logical(rest)) <= MAX_LINE
  }

  /** The lines read in this way are what the policy takes for the beginning of a profile. */
  ghost predicate Reads(r: Rules, lines: seq<string>, w: Reading) {
    && AllClean(lines)
    && lines == Flat(w.pieces) + StartedLines(w.open)
    && OutsideLines(w.pieces) == Concat(w.groups) + w.rest
    && GoodPieces(r, w.pieces) && GoodOpen(r, w.pieces, w.open)
    && GoodGroups(r, w.groups) && GoodRest(w.rest)
  }

  ghost predicate SomeSays(r: Rules, groups: seq<seq<string>>, name: string) {
    exists k :: 0 <= k < |groups| && Says(r, Logical(groups[k]), name)
  }

  /** A whole profile: no block is open, no directive is continued further than with nothing, one
      directive asks for client mode and one names a remote. */
  ghost predicate Ended(r: Rules, w: Reading) {
    && w.open.Nothing? && Logical(w.rest) == ""
    && (SomeSays(r, w.groups, "client") || SomeSays(r, w.groups, "tls-client"))
    && SomeSays(r, w.groups, "remote")
  }

  // ----- the parts of the reader -------------------------------------------------------------

  lemma Enclosed(t: string, x: string)
    requires t == "<" + x + ">"
    ensures |t| >= 2 && t[0] == '<' && t[|t| - 1] == '>' && x == t[1..|t| - 1]
  {
    assert t[|t| - 1] == ">"[0];
  }

  predicate AngledParts(t: string, inner: string) {
    |t| >= 2 && t[0] == '<' && t[|t| - 1] == '>' && inner == TrimSpace(t[1..|t| - 1])
  }

  lemma AngledExact(line: string, inner: string)
    ensures Angled(line, inner) <==> AngledParts(TrimSpace(line), inner)
  {
    var t := TrimSpace(line);
    if AngledParts(t, inner) {
      var x := t[1..|t| - 1];
      assert t == "<" + x + ">" && inner == TrimSpace(x);
      assert Angled(line, inner);
    }
    if Angled(line, inner) {
      var x: string :| t == "<" + x + ">" && inner == TrimSpace(x);
      Enclosed(t, x);
      assert AngledParts(t, inner);
    }
  }

  /** openVPNBlockDelimiter tells apart exactly the lines that open and close inline blocks. */
  lemma DelimiterExact(lower: char -> char, line: string)
    ensures var d := BlockDelimiter(lower, TrimSpace(line));
      && (d.Closing? <==> Closes(line))
      && (d.NoDelimiter? <==> Plain(lower, line))
      && forall name :: d == Opening(name) <==> Opens(lower, line, name)
  {
    var t := TrimSpace(line);
    var d := BlockDelimiter(lower, t);
    forall inner ensures Angled(line, inner) <==> AngledParts(t, inner) { AngledExact(line, inner); }
    if |t| >= 2 && t[0] == '<' && t[|t| - 1] == '>' {
      var inner := TrimSpace(t[1..|t| - 1]);
      assert Angled(line, inner);
      assert |t| == 2 ==> inner == "";
      assert "/" <= inner <==> inner != "" && inner[0] == '/';
      if inner != "" && inner[0] != '/' { assert Opens(lower, line, Lower(lower, inner)); }
    }
  }

  lemma {:induction false} TrimDashesExact(token: string) returns (n: nat)
    ensures DashesUpTo(token, n) && TrimDashes(token) == token[n..]
  {
    n := 0;
    if token != "" && token[0] == '-' {
      var m := TrimDashesExact(token[1..]);
      n := m + 1;
      DashesShift(token, m);
    }
  }

  lemma DashesShift(token: string, m: nat)
    requires token != "" && token[0] == '-' && DashesUpTo(token[1..], m)
    ensures DashesUpTo(token, m + 1) && token[m + 1..] == token[1..][m..]
  {
    assert forall k :: 0 < k < |token| ==> token[k] == token[1..][k - 1];
  }

  lemma NamesExact(lower: char -> char, token: string, name: string)
    ensures Names(lower, token, name) <==> name == Lower(lower, TrimDashes(token))
  {
    var n := TrimDashesExact(token);
    if m: nat :| DashesUpTo(token, m) && name == Lower(lower, token[m..]) {
      assert m == n;
    }
  }

  /** validateOpenVPNDirective accepts exactly what is permitted, and returns the name. */
  lemma DirectiveExact(r: Rules, logical: string)
    ensures Directive(r, logical).Some? <==> Permitted(r, logical)
    ensures forall name :: name != "" && Directive(r, logical).Some? ==>
      (Directive(r, logical).value == name <==> Says(r, logical, name))
  {
    if Tokenize(logical).Tokens? {
      var tokens := Tokenize(logical).tokens;
      if tokens != [] {
        var name := Lower(r.lower, TrimDashes(tokens[0]));
        forall other ensures Names(r.lower, tokens[0], other) <==> other == name {
          NamesExact(r.lower, tokens[0], other);
        }
        ArguedExact(r, name, tokens);
        assert Permitted(r, logical) <==> PermittedTokens(r, tokens);
      } else {
        assert PermittedTokens(r, tokens);
      }
    }
  }

  lemma ArguedExact(r: Rules, name: string, tokens: seq<string>)
    requires tokens != []
    ensures Argued(r, name, tokens[1..]) <==>
      if name in r.inlined then |tokens| == 2 && Lower(r.lower, tokens[1]) == "[inline]"
      else r.arguments(name).Some? && r.arguments(name).value.0 <= |tokens| - 1 <= r.arguments(name).value.1
  {
    assert |tokens| == 2 ==> tokens[1..][0] == tokens[1];
    if name !in r.inlined && r.arguments(name).Some? {
      var bounds := r.arguments(name).value;
      assert r.arguments(name) == Some((bounds.0, bounds.1));
    }
  }

  lemma {:induction false} ByteLengthJoined(a: string, b: string)
    ensures ByteLength(a + b) == ByteLength(a) + ByteLength(b)
  {
    if b == "" {
      assert a + b == a;
    } else {
      ByteLengthJoined(a, b[..|b| - 1]);
      assert (a + b)[..|a + b| - 1] == a + b[..|b| - 1];
    }
  }

  /** The continuation scan, said with the tokenizer. */
  lemma ContinuesExact(line: string)
    ensures match Continues(line)
            case Continued(fragment) => Continuing(line) && fragment == TextOf(line)
            case Complete(content) => Ending(line) && content == TextOf(line)
            case Unterminated => !Continuing(line) && !Ending(line)
            case ControlCharacter => false
  {
    ScannersAgree(line);
    if Continues(line).Continued? { assert line == Continues(line).fragment + "\\"; }
  }

  // ----- the reader along a reading ----------------------------------------------------------

  ghost function SeenSoFar(r: Rules, w: Reading): (bool, bool) {
    (SomeSays(r, w.groups, "client") || SomeSays(r, w.groups, "tls-client"), SomeSays(r, w.groups, "remote"))
  }

  /** What the reader remembers after the lines that are read in this way. */
  ghost function StateOf(r: Rules, w: Reading): Reader {
    var seen := SeenSoFar(r, w);
    match w.open
    case Nothing => Reader(Logical(w.rest), "", 0, BlockNames(w.pieces), seen.0, seen.1)
    case Started(name, _, body) => Reader(Logical(w.rest), name, BodyBytes(body), BlockNames(w.pieces), seen.0, seen.1)
  }

  const EMPTY := Reading([], Nothing, [], [])

  lemma ReadsNothing(r: Rules)
    ensures Reads(r, [], EMPTY) && StateOf(r, EMPTY) == START
  {
  }

  lemma FlatSnoc(pieces: seq<Piece>, piece: Piece)
    ensures Flat(pieces + [piece]) == Flat(pieces) + LinesOf(piece)
    ensures OutsideLines(pieces + [piece]) == OutsideLines(pieces) + (if piece.Outside? then [piece.line] else [])
  {
    var all := pieces + [piece];
    assert all[..|all| - 1] == pieces;
  }

  lemma BlockNamesSnoc(pieces: seq<Piece>, piece: Piece)
    ensures BlockNames(pieces + [piece]) == BlockNames(pieces) + (if piece.Block? then {piece.name} else {})
  {
    var all := pieces + [piece];
    forall name | name in BlockNames(pieces) ensures name in BlockNames(all) {
      var k :| 0 <= k < |pieces| && pieces[k].Block? && pieces[k].name == name;
      assert all[k] == pieces[k];
    }
    if piece.Block? { assert all[|pieces|] == piece; }
  }

  lemma LogicalSnoc(lines: seq<string>, line: string)
    ensures Logical(lines + [line]) == Logical(lines) + TextOf(line)
    ensures ByteLength(Logical(lines)) <= ByteLength(Logical(lines + [line]))
  {
    assert (lines + [line])[..|lines|] == lines;
    ByteLengthJoined(Logical(lines), TextOf(line));
  }

  lemma ConcatSnoc(groups: seq<seq<string>>, group: seq<string>)
    ensures Concat(groups + [group]) == Concat(groups) + group
  {
    assert (groups + [group])[..|groups|] == groups;
  }

  lemma BodyBytesSnoc(body: seq<string>, line: string)
    ensures BodyBytes(body + [line]) == BodyBytes(body) + ByteLength(line) + 1
  {
    assert (body + [line])[..|body|] == body;
  }

  lemma SomeSaysSnoc(r: Rules, groups: seq<seq<string>>, group: seq<string>, name: string)
    ensures SomeSays(r, groups + [group], name) <==> SomeSays(r, groups, name) || Says(r, Logical(group), name)
  {
    var all := groups + [group];
    if SomeSays(r, groups, name) {
      var k :| 0 <= k < |groups| && Says(r, Logical(groups[k]), name);
      assert all[k] == groups[k];
    }
    if Says(r, Logical(group), name) { assert all[|groups|] == group; }
  }

  /** The pieces with one more. */
  lemma GoodPiecesSnoc(r: Rules, pieces: seq<Piece>, piece: Piece)
    ensures GoodPieces(r, pieces + [piece]) <==>
      GoodPieces(r, pieces) && GoodPiece(r, piece) && (piece.Block? ==> piece.name !in BlockNames(pieces))
  {
    var all := pieces + [piece];
    assert all[|pieces|] == piece && forall k :: 0 <= k < |pieces| ==> all[k] == pieces[k];
  }

  lemma GoodGroupsSnoc(r: Rules, groups: seq<seq<string>>, group: seq<string>)
    ensures GoodGroups(r, groups + [group]) <==>
      GoodGroups(r, groups) && Whole(group) && Permitted(r, Logical(group))
  {
    var all := groups + [group];
    assert all[|groups|] == group && forall k :: 0 <= k < |groups| ==> all[k] == groups[k];
  }

  lemma ContinuingSnoc(rest: seq<string>, x: string)
    ensures AllContinuing(rest + [x]) <==> AllContinuing(rest) && Continuing(x)
  {
    var all := rest + [x];
    assert all[|rest|] == x && forall k :: 0 <= k < |rest| ==> all[k] == rest[k];
  }

  lemma NothingStarted(flat: seq<string>)
    ensures flat + StartedLines(Nothing) == flat
  {
  }

  // ----- the five ways to read one more line ---------------------------------------------------

  /** The line opens a block. */
  ghost predicate FitsOpening(r: Rules, w: Reading, x: string, name: string) {
    w.open.Nothing? && Opens(r.lower, x, name) && name in r.inlined && name !in BlockNames(w.pieces)
  }

  function WithOpening(w: Reading, x: string, name: string): Reading {
    w.(open := Started(name, x, []))
  }

  lemma OpeningReads(r: Rules, lines: seq<string>, w: Reading, x: string, name: string)
    requires w.open.Nothing?
    ensures Reads(r, lines + [x], WithOpening(w, x, name)) <==>
      Reads(r, lines, w) && CleanLine(x) && FitsOpening(r, w, x, name)
  {
    CleanSnoc(lines, x);
    OpeningLines(lines, x, Flat(w.pieces), name);
    EmptyBody(r, name, x);
  }

  lemma OpeningLines(lines: seq<string>, x: string, flat: seq<string>, name: string)
    ensures lines + [x] == flat + StartedLines(Started(name, x, [])) <==> lines == flat + StartedLines(Nothing)
  {
    SameLast(lines, x, flat);
    NothingStarted(flat);
  }

  lemma EmptyBody(r: Rules, name: string, opening: string)
    ensures GoodBody(r, name, opening, []) <==> Opens(r.lower, opening, name) && name in r.inlined
  {
  }

  lemma OpeningStep(r: Rules, w: Reading, x: string, name: string)
    requires CleanLine(x) && FitsOpening(r, w, x, name)
    ensures ReadLine(r, StateOf(r, w), x) == Some(StateOf(r, WithOpening(w, x, name)))
  {
    DelimiterExact(r.lower, x);
  }

  /** The line is one more of the open block's body. */
  ghost predicate FitsBody(r: Rules, w: Reading, x: string) {
    w.open.Started? && InBody(r, w.open.name, x) && BodyBytes(w.open.body) + ByteLength(x) + 1 <= MAX_BLOCK
  }

  function WithBody(w: Reading, x: string): Reading
    requires w.open.Started?
  {
    w.(open := w.open.(body := w.open.body + [x]))
  }

  lemma BodySnoc(r: Rules, name: string, opening: string, body: seq<string>, x: string)
    ensures GoodBody(r, name, opening, body + [x]) <==>
      GoodBody(r, name, opening, body) && InBody(r, name, x) && BodyBytes(body) + ByteLength(x) + 1 <= MAX_BLOCK
  {
    var all := body + [x];
    BodyBytesSnoc(body, x);
    assert all[|body|] == x && forall k :: 0 <= k < |body| ==> all[k] == body[k];
  }

  lemma BodyReads(r: Rules, lines: seq<string>, w: Reading, x: string)
    requires w.open.Started?
    ensures Reads(r, lines + [x], WithBody(w, x)) <==> Reads(r, lines, w) && CleanLine(x) && FitsBody(r, w, x)
  {
    CleanSnoc(lines, x);
    BodyLines(lines, x, Flat(w.pieces), w.open);
    BodySnoc(r, w.open.name, w.open.opening, w.open.body, x);
  }

  lemma BodyLines(lines: seq<string>, x: string, flat: seq<string>, open: Unclosed)
    requires open.Started?
    ensures lines + [x] == flat + StartedLines(open.(body := open.body + [x])) <==> lines == flat + StartedLines(open)
  {
    SameLast(lines, x, flat + StartedLines(open));
    assert flat + ([open.opening] + (open.body + [x])) == flat + ([open.opening] + open.body) + [x];
  }

  lemma BodyStep(r: Rules, w: Reading, x: string)
    requires CleanLine(x) && FitsBody(r, w, x) && w.open.name != ""
    ensures ReadLine(r, StateOf(r, w), x) == Some(StateOf(r, WithBody(w, x)))
  {
    BodyBytesSnoc(w.open.body, x);
    AngleEnds(TrimSpace(x));
  }

  lemma AngleEnds(t: string)
    ensures "<" <= t && HasSuffix(t, ">") <==> t != "" && t[0] == '<' && t[|t| - 1] == '>'
  {
    if t != "" { assert t[|t| - 1..] == [t[|t| - 1]]; }
  }

  /** The line closes the open block. */
  ghost predicate FitsClosing(r: Rules, w: Reading, x: string) {
    w.open.Started? && ClosesBlock(r, w.open.name, x)
  }

  function WithClosing(w: Reading, x: string): Reading
    requires w.open.Started?
  {
    w.(pieces := w.pieces + [Block(w.open.name, w.open.opening, w.open.body, x)], open := Nothing)
  }

  lemma ClosingReads(r: Rules, lines: seq<string>, w: Reading, x: string)
    requires w.open.Started?
    ensures Reads(r, lines + [x], WithClosing(w, x)) <==> Reads(r, lines, w) && CleanLine(x) && FitsClosing(r, w, x)
  {
    var piece := Block(w.open.name, w.open.opening, w.open.body, x);
    CleanSnoc(lines, x);
    ClosingLines(lines, x, Flat(w.pieces), w.open);
    FlatSnoc(w.pieces, piece);
    GoodPiecesSnoc(r, w.pieces, piece);
  }

  lemma ClosingLines(lines: seq<string>, x: string, flat: seq<string>, open: Unclosed)
    requires open.Started?
    ensures var piece := Block(open.name, open.opening, open.body, x);
      lines + [x] == (flat + LinesOf(piece)) + StartedLines(Nothing) <==> lines == flat + StartedLines(open)
  {
    var piece := Block(open.name, open.opening, open.body, x);
    SameLast(lines, x, flat + StartedLines(open));
    assert flat + LinesOf(piece) == flat + StartedLines(open) + [x];
    NothingStarted(flat + LinesOf(piece));
  }

  lemma ClosingStep(r: Rules, w: Reading, x: string)
    requires CleanLine(x) && FitsClosing(r, w, x) && w.open.name != ""
    ensures ReadLine(r, StateOf(r, w), x) == Some(StateOf(r, WithClosing(w, x)))
  {
    BlockNamesSnoc(w.pieces, Block(w.open.name, w.open.opening, w.open.body, x));
  }

  /** The line continues the directive at hand. */
  ghost predicate FitsContinuing(r: Rules, w: Reading, x: string) {
    w.open.Nothing? && Plain(r.lower, x) && Continuing(x) && ByteLength(Logical(w.rest) + TextOf(x)) <= MAX_LINE
  }

  function WithContinuing(w: Reading, x: string): Reading {
    w.(pieces := w.pieces + [Outside(x)], rest := w.rest + [x])
  }

  /** One more line outside blocks: the pieces. */
  lemma OutsideReads(r: Rules, lines: seq<string>, pieces: seq<Piece>, x: string)
    ensures AllClean(lines + [x]) && lines + [x] == Flat(pieces + [Outside(x)]) <==>
      AllClean(lines) && CleanLine(x) && lines == Flat(pieces)
    ensures GoodPieces(r, pieces + [Outside(x)]) <==> GoodPieces(r, pieces) && Plain(r.lower, x)
    ensures OutsideLines(pieces + [Outside(x)]) == OutsideLines(pieces) + [x]
    ensures BlockNames(pieces + [Outside(x)]) == BlockNames(pieces)
  {
    CleanSnoc(lines, x);
    SameLast(lines, x, Flat(pieces));
    FlatSnoc(pieces, Outside(x));
    BlockNamesSnoc(pieces, Outside(x));
    GoodPiecesSnoc(r, pieces, Outside(x));
  }

  lemma ContinuingReads(r: Rules, lines: seq<string>, w: Reading, x: string)
    requires w.open.Nothing?
    ensures Reads(r, lines + [x], WithContinuing(w, x)) <==>
      Reads(r, lines, w) && CleanLine(x) && FitsContinuing(r, w, x)
  {
    OutsideReads(r, lines, w.pieces, x);
    RestGrows(OutsideLines(w.pieces), Concat(w.groups), w.rest, x);
    NothingStarted(Flat(w.pieces));
    NothingStarted(Flat(w.pieces + [Outside(x)]));
    RestSnoc(w.rest, x);
  }

  lemma RestGrows(outside: seq<string>, ended: seq<string>, rest: seq<string>, x: string)
    ensures outside + [x] == ended + (rest + [x]) <==> outside == ended + rest
  {
    SameLast(outside, x, ended + rest);
    assert ended + rest + [x] == ended + (rest + [x]);
  }

  lemma RestSnoc(rest: seq<string>, x: string)
    ensures GoodRest(rest + [x]) <==>
      GoodRest(rest) && Continuing(x) && ByteLength(Logical(rest) + TextOf(x)) <= MAX_LINE
  {
    LogicalSnoc(rest, x);
    ContinuingSnoc(rest, x);
  }

  lemma ContinuingStep(r: Rules, w: Reading, x: string)
    requires CleanLine(x) && FitsContinuing(r, w, x)
    ensures ReadLine(r, StateOf(r, w), x) == Some(StateOf(r, WithContinuing(w, x)))
  {
    var logical := Logical(w.rest) + TextOf(x);
    PlainLine(r, StateOf(r, w), x);
    ContinuingFragment(r, StateOf(r, w), x);
    LogicalSnoc(w.rest, x);
    BlockNamesSnoc(w.pieces, Outside(x));
    assert StateOf(r, WithContinuing(w, x)) == StateOf(r, w).(logical := logical);
  }

  lemma PlainLine(r: Rules, s: Reader, x: string)
    requires CleanLine(x) && Plain(r.lower, x) && s.block == ""
    ensures ReadLine(r, s, x) == ReadFragment(r, s, x)
  {
    DelimiterExact(r.lower, x);
  }

  lemma ContinuingFragment(r: Rules, s: Reader, x: string)
    requires Continuing(x) && ByteLength(s.logical + TextOf(x)) <= MAX_LINE
    ensures ReadFragment(r, s, x) == Some(s.(logical := s.logical + TextOf(x)))
  {
    ContinuesExact(x);
  }

  lemma EndingFragment(r: Rules, s: Reader, x: string)
    requires Ending(x) && ByteLength(s.logical + TextOf(x)) <= MAX_LINE && Permitted(r, s.logical + TextOf(x))
    ensures var logical := s.logical + TextOf(x);
      ReadFragment(r, s, x) ==
        Some(s.(logical := "",
                seenClient := s.seenClient || Says(r, logical, "client") || Says(r, logical, "tls-client"),
                seenRemote := s.seenRemote || Says(r, logical, "remote")))
  {
    var logical := s.logical + TextOf(x);
    ContinuesExact(x);
    DirectiveExact(r, logical);
    var name := Directive(r, logical).value;
    assert name == "client" <==> Says(r, logical, "client");
    assert name == "tls-client" <==> Says(r, logical, "tls-client");
    assert name == "remote" <==> Says(r, logical, "remote");
  }

  /** The line ends the directive at hand, and it is permitted. */
  ghost predicate FitsEnding(r: Rules, w: Reading, x: string) {
    && w.open.Nothing? && Plain(r.lower, x) && Ending(x)
    && ByteLength(Logical(w.rest) + TextOf(x)) <= MAX_LINE
    && Permitted(r, Logical(w.rest) + TextOf(x))
  }

  function WithEnding(w: Reading, x: string): Reading {
    w.(pieces := w.pieces + [Outside(x)], groups := w.groups + [w.rest + [x]], rest := [])
  }

  lemma EndingReads(r: Rules, lines: seq<string>, w: Reading, x: string)
    requires w.open.Nothing?
    ensures Reads(r, lines + [x], WithEnding(w, x)) <==>
      Reads(r, lines, w) && CleanLine(x) && FitsEnding(r, w, x)
  {
    var group := w.rest + [x];
    OutsideReads(r, lines, w.pieces, x);
    GroupEnds(OutsideLines(w.pieces), w.groups, w.rest, x);
    NothingStarted(Flat(w.pieces));
    NothingStarted(Flat(w.pieces + [Outside(x)]));
    WholeSnoc(w.rest, x);
    GoodGroupsSnoc(r, w.groups, group);
  }

  lemma GroupEnds(outside: seq<string>, groups: seq<seq<string>>, rest: seq<string>, x: string)
    ensures outside + [x] == Concat(groups + [rest + [x]]) + [] <==> outside == Concat(groups) + rest
  {
    ConcatSnoc(groups, rest + [x]);
    SameLast(outside, x, Concat(groups) + rest);
    assert Concat(groups) + (rest + [x]) + [] == Concat(groups) + rest + [x];
  }

  lemma WholeSnoc(rest: seq<string>, x: string)
    ensures Logical(rest + [x]) == Logical(rest) + TextOf(x)
    ensures Whole(rest + [x]) <==>
      GoodRest(rest) && Ending(x) && ByteLength(Logical(rest) + TextOf(x)) <= MAX_LINE
  {
    LogicalSnoc(rest, x);
    assert (rest + [x])[..|rest + [x]| - 1] == rest;
  }

  lemma EndingSeen(r: Rules, w: Reading, x: string)
    ensures var logical, seen, next := Logical(w.rest) + TextOf(x), SeenSoFar(r, w), SeenSoFar(r, WithEnding(w, x));
      && next.0 == (seen.0 || Says(r, logical, "client") || Says(r, logical, "tls-client"))
      && next.1 == (seen.1 || Says(r, logical, "remote"))
  {
    var group := w.rest + [x];
    LogicalSnoc(w.rest, x);
    SomeSaysSnoc(r, w.groups, group, "client");
    SomeSaysSnoc(r, w.groups, group, "tls-client");
    SomeSaysSnoc(r, w.groups, group, "remote");
  }

  lemma EndingStep(r: Rules, w: Reading, x: string)
    requires CleanLine(x) && FitsEnding(r, w, x)
    ensures ReadLine(r, StateOf(r, w), x) == Some(StateOf(r, WithEnding(w, x)))
  {
    PlainLine(r, StateOf(r, w), x);
    EndingFragment(r, StateOf(r, w), x);
    EndingSeen(r, w, x);
    BlockNamesSnoc(w.pieces, Outside(x));
    var s, next := StateOf(r, w), SeenSoFar(r, WithEnding(w, x));
    assert StateOf(r, WithEnding(w, x)) == s.(logical := "", seenClient := next.0, seenRemote := next.1);
  }

  lemma OpensNamed(lower: char -> char, line: string, name: string)
    requires Opens(lower, line, name)
    ensures name != ""
  {
  }

  datatype Way = ToOpen(name: string) | ToFill | ToClose | ToContinue | ToEnd

  /** The way is open: inside a block a line belongs to it, outside it does not. */
  predicate Applies(w: Reading, way: Way) {
    w.open.Started? <==> way.ToFill? || way.ToClose?
  }

  function With(w: Reading, x: string, way: Way): Reading
    requires Applies(w, way)
  {
    match way
    case ToOpen(name) => WithOpening(w, x, name)
    case ToFill => WithBody(w, x)
    case ToClose => WithClosing(w, x)
    case ToContinue => WithContinuing(w, x)
    case ToEnd => WithEnding(w, x)
  }

  ghost predicate Fits(r: Rules, w: Reading, x: string, way: Way) {
    match way
    case ToOpen(name) => FitsOpening(r, w, x, name)
    case ToFill => FitsBody(r, w, x)
    case ToClose => FitsClosing(r, w, x)
    case ToContinue => FitsContinuing(r, w, x)
    case ToEnd => FitsEnding(r, w, x)
  }

  /** One more line is read in this way exactly when it fits. */
  lemma WayReads(r: Rules, lines: seq<string>, w: Reading, x: string, way: Way)
    requires Applies(w, way)
    ensures Reads(r, lines + [x], With(w, x, way)) <==> Reads(r, lines, w) && CleanLine(x) && Fits(r, w, x, way)
  {
    match way
    case ToOpen(name) => OpeningReads(r, lines, w, x, name);
    case ToFill => BodyReads(r, lines, w, x);
    case ToClose => ClosingReads(r, lines, w, x);
    case ToContinue => ContinuingReads(r, lines, w, x);
    case ToEnd => EndingReads(r, lines, w, x);
  }

  ghost predicate NamedOpen(w: Reading) {
    w.open.Started? ==> w.open.name != ""
  }

  lemma ReadsNamed(r: Rules, lines: seq<string>, w: Reading)
    requires Reads(r, lines, w)
    ensures NamedOpen(w)
  {
    if w.open.Started? { OpensNamed(r.lower, w.open.opening, w.open.name); }
  }

  /** On a line that fits, the reader goes on as the reading does. */
  lemma WayStep(r: Rules, w: Reading, x: string, way: Way)
    requires Applies(w, way) && NamedOpen(w) && CleanLine(x) && Fits(r, w, x, way)
    ensures ReadLine(r, StateOf(r, w), x) == Some(StateOf(r, With(w, x, way)))
  {
    match way
    case ToOpen(name) => OpeningStep(r, w, x, name);
    case ToFill => BodyStep(r, w, x);
    case ToClose => ClosingStep(r, w, x);
    case ToContinue => ContinuingStep(r, w, x);
    case ToEnd => EndingStep(r, w, x);
  }

  /** What the reader does not refuse fits in one of the ways. */
  lemma WayTaken(r: Rules, w: Reading, x: string) returns (way: Way)
    requires NamedOpen(w) && ReadLine(r, StateOf(r, w), x).Some?
    ensures CleanLine(x) && Applies(w, way) && Fits(r, w, x, way)
  {
    if w.open.Started? {
      AngleEnds(TrimSpace(x));
      way := if ClosesBlock(r, w.open.name, x) then ToClose else ToFill;
    } else {
      way := WayOutside(r, w, x);
    }
  }

  lemma WayOutside(r: Rules, w: Reading, x: string) returns (way: Way)
    requires w.open.Nothing? && ReadLine(r, StateOf(r, w), x).Some?
    ensures CleanLine(x) && Applies(w, way) && Fits(r, w, x, way)
  {
    DelimiterExact(r.lower, x);
    match BlockDelimiter(r.lower, TrimSpace(x))
    case Closing =>
    case Opening(name) => way := ToOpen(name);
    case NoDelimiter =>
      ContinuesExact(x);
      DirectiveExact(r, Logical(w.rest) + TextOf(x));
      way := if Continuing(x) then ToContinue else ToEnd;
  }

  /** Where the reader goes on from a reading, there is a reading of one more line. */
  lemma StepForward(r: Rules, lines: seq<string>, w: Reading, x: string) returns (v: Reading)
    requires Reads(r, lines, w) && ReadLine(r, StateOf(r, w), x).Some?
    ensures Reads(r, lines + [x], v) && ReadLine(r, StateOf(r, w), x) == Some(StateOf(r, v))
  {
    ReadsNamed(r, lines, w);
    var way := WayTaken(r, w, x);
    v := With(w, x, way);
    WayReads(r, lines, w, x, way);
    WayStep(r, w, x, way);
  }

  /** The shape of a reading: its lines are those of its pieces, and no directive is without lines. */
  predicate Shaped(lines: seq<string>, w: Reading) {
    && lines == Flat(w.pieces) + StartedLines(w.open)
    && OutsideLines(w.pieces) == Concat(w.groups) + w.rest
    && forall k :: 0 <= k < |w.groups| ==> w.groups[k] != []
  }

  lemma ReadsShaped(r: Rules, lines: seq<string>, w: Reading)
    requires Reads(r, lines, w)
    ensures Shaped(lines, w)
  {
  }

  /** The last line of a reading was read in one of the ways. */
  lemma LastWay(lines: seq<string>, x: string, v: Reading) returns (w: Reading, way: Way)
    requires Shaped(lines + [x], v)
    ensures Applies(w, way) && v == With(w, x, way)
  {
    if v.open.Started? {
      w, way := LastInBlock(lines, x, v);
    } else {
      var all := v.pieces;
      assert all != [];
      var before, last := all[..|all| - 1], all[|all| - 1];
      assert all == before + [last];
      FlatSnoc(before, last);
      LastOf(lines, x, Flat(before), LinesOf(last));
      if last.Block? {
        w, way := v.(pieces := before, open := Started(last.name, last.opening, last.body)), ToClose;
      } else {
        LastOf(OutsideLines(before), last.line, Concat(v.groups), v.rest);
        w, way := LastOutside(x, before, v);
      }
    }
  }

  lemma LastOf<T>(lines: seq<T>, x: T, first: seq<T>, second: seq<T>)
    requires lines + [x] == first + second || lines + [x] == first + second + []
    ensures second != [] ==> second[|second| - 1] == x
    ensures second == [] ==> first != [] && first[|first| - 1] == x
  {
    assert (lines + [x])[|lines|] == x;
    assert (first + second + [])[|first + second| - 1] == x;
  }

  lemma LastInBlock(lines: seq<string>, x: string, v: Reading) returns (w: Reading, way: Way)
    requires v.open.Started? && lines + [x] == Flat(v.pieces) + StartedLines(v.open)
    ensures Applies(w, way) && v == With(w, x, way)
  {
    var body := v.open.body;
    LastOf(lines, x, Flat(v.pieces), [v.open.opening] + body);
    if body == [] {
      w, way := v.(open := Nothing), ToOpen(v.open.name);
    } else {
      assert body == body[..|body| - 1] + [x];
      w, way := v.(open := v.open.(body := body[..|body| - 1])), ToFill;
    }
  }

  lemma LastOutside(x: string, before: seq<Piece>, v: Reading) returns (w: Reading, way: Way)
    requires v.open.Nothing? && v.pieces == before + [Outside(x)]
    requires v.rest != [] ==> v.rest[|v.rest| - 1] == x
    requires v.rest == [] ==> Concat(v.groups) != [] && Concat(v.groups)[|Concat(v.groups)| - 1] == x
    requires forall k :: 0 <= k < |v.groups| ==> v.groups[k] != []
    ensures Applies(w, way) && v == With(w, x, way)
  {
    if v.rest != [] {
      assert v.rest == v.rest[..|v.rest| - 1] + [x];
      w, way := v.(pieces := before, rest := v.rest[..|v.rest| - 1]), ToContinue;
    } else {
      var groups, group := v.groups[..|v.groups| - 1], v.groups[|v.groups| - 1];
      assert v.groups == groups + [group];
      ConcatSnoc(groups, group);
      assert group == group[..|group| - 1] + [x];
      w, way := v.(pieces := before, groups := groups, rest := group[..|group| - 1]), ToEnd;
    }
  }

  /** A reading without its last line is a reading, from which the reader goes on as it does. */
  lemma StepBack(r: Rules, lines: seq<string>, x: string, v: Reading) returns (w: Reading)
    requires Reads(r, lines + [x], v)
    ensures Reads(r, lines, w) && ReadLine(r, StateOf(r, w), x) == Some(StateOf(r, v))
  {
    ReadsShaped(r, lines + [x], v);
    var way;
    w, way := LastWay(lines, x, v);
    WayReads(r, lines, w, x, way);
    ReadsNamed(r, lines, w);
    WayStep(r, w, x, way);
  }

  lemma {:induction false} ReadLinesSnoc(r: Rules, s: Reader, lines: seq<string>, x: string)
    ensures var before := ReadLines(r, s, lines);
      ReadLines(r, s, lines + [x]) == if before.None? then None else ReadLine(r, before.value, x)
    decreases |lines|
  {
    var all := lines + [x];
    if lines == [] {
      assert all[1..] == [];
    } else {
      assert all[0] == lines[0] && all[1..] == lines[1..] + [x];
      if ReadLine(r, s, lines[0]).Some? { ReadLinesSnoc(r, ReadLine(r, s, lines[0]).value, lines[1..], x); }
    }
  }

  /** What the reader accepts as the beginning of a profile is read in some way. */
  lemma {:induction false} Readable(r: Rules, lines: seq<string>) returns (w: Reading)
    requires ReadLines(r, START, lines).Some?
    ensures Reads(r, lines, w) && ReadLines(r, START, lines) == Some(StateOf(r, w))
    decreases |lines|
  {
    if lines == [] {
      w := EMPTY;
      ReadsNothing(r);
    } else {
      var before, x := LastLine(lines);
      ReadLinesSnoc(r, START, before, x);
      var u := Readable(r, before);
      w := StepForward(r, before, u, x);
    }
  }

  lemma LastRead(r: Rules, lines: seq<string>, v: Reading) returns (before: seq<string>, x: string, w: Reading)
    requires Reads(r, lines, v) && lines != []
    ensures lines == before + [x] && Reads(r, before, w) && ReadLine(r, StateOf(r, w), x) == Some(StateOf(r, v))
  {
    before, x := LastLine(lines);
    w := StepBack(r, before, x, v);
  }

  /** Whatever is read in some way the reader accepts, and remembers what that reading says. */
  lemma {:induction false} Readings(r: Rules, s: Reader, lines: seq<string>, v: Reading)
    requires Reads(r, lines, v) && s == START
    ensures ReadLines(r, s, lines) == Some(StateOf(r, v))
    decreases |lines|
  {
    if lines == [] {
      NothingRead(r, lines, v);
    } else {
      var before, x, w := LastRead(r, lines, v);
      Readings(r, s, before, w);
      ReadFurther(r, s, lines, before, x, StateOf(r, w), StateOf(r, v));
    }
  }

  lemma NothingRead(r: Rules, lines: seq<string>, v: Reading)
    requires Reads(r, lines, v) && lines == []
    ensures ReadLines(r, START, lines) == Some(StateOf(r, v))
  {
    assert v == EMPTY;
    ReadsNothing(r);
  }

  lemma ReadFurther(r: Rules, s: Reader, lines: seq<string>, before: seq<string>, x: string, t: Reader, end: Reader)
    requires lines == before + [x] && ReadLines(r, s, before) == Some(t) && ReadLine(r, t, x) == Some(end)
    ensures ReadLines(r, s, lines) == Some(end)
  {
    ReadLinesSnoc(r, s, before, x);
  }

  lemma EndedExact(r: Rules, lines: seq<string>, w: Reading)
    requires Reads(r, lines, w)
    ensures Finished(StateOf(r, w)) <==> Ended(r, w)
  {
    if w.open.Started? { OpensNamed(r.lower, w.open.opening, w.open.name); }
  }

  /** The lines are the parts, each less one carriage return at its end. */
  predicate Unended(lines: seq<string>, parts: seq<string>) {
    |lines| == |parts| && forall k :: 0 <= k < |parts| ==> lines[k] == TrimSuffix(parts[k], "\r")
  }

  lemma UnendedFirst(lines: seq<string>, parts: seq<string>, part: string)
    requires Unended(lines, parts)
    ensures Unended([TrimSuffix(part, "\r")] + lines, [part] + parts)
  {
  }

  /** The physical lines are what stands between the line feeds; nothing after the last one is no line. */
  lemma {:induction false} PhysicalExact(text: string)
    ensures Unended(PhysicalLines(text), DropEmptyLast(Split(text, '\n')))
    decreases |text|
  {
    var n := Position(text, '\n');
    if n < |text| {
      var parts := Split(text[n + 1..], '\n');
      PhysicalFirst(text, n);
      PhysicalExact(text[n + 1..]);
      SplitStep(text, n);
      AgreeFurther([text[..n]] + parts, text[..n], parts);
      UnendedFirst(PhysicalLines(text[n + 1..]), DropEmptyLast(parts), text[..n]);
    } else {
      assert Split(text, '\n') == [text];
    }
  }

  /** ValidateOpenVPNImport accepts exactly the texts that can be read as a whole profile. */
  lemma OpenVPNExact(r: Rules, text: string)
    ensures OpenVPNAccepts(r, text) <==>
      RightSize(text) && exists w :: Reads(r, PhysicalLines(text), w) && Ended(r, w)
  {
    var lines := PhysicalLines(text);
    if OpenVPNAccepts(r, text) {
      var w := Readable(r, lines);
      EndedExact(r, lines, w);
    }
    if w :| Reads(r, lines, w) && Ended(r, w) {
      Readings(r, START, lines, w);
      EndedExact(r, lines, w);
    }
  }
}
