/** No text passes both import policies, so automatic detection of an accepted profile is unique
    (internal/profiles/import.go). A WireGuard profile's first line that is neither blank nor a
    comment is a section header; the OpenVPN reader takes that line, or an earlier one that it does
    not see as blank, for the start of a directive whose name begins with a bracket or an exotic
    space, and no table names such a directive. */
module Detection {
  import opened Contracts
  import opened Text
  import opened Library
  import opened ConfigText
  import opened Policies

  // ----- trimming ----------------------------------------------------------------------------

  function FirstSolid(s: string): (n: nat)
    ensures n <= |s| && (n < |s| ==> !IsSpace(s[n])) && forall k :: 0 <= k < n ==> IsSpace(s[k])
  {
    if s != "" && IsSpace(s[0]) then 1 + FirstSolid(s[1..]) else 0
  }

  lemma {:induction false} TrimLeftIs(s: string)
    ensures TrimLeftSpace(s) == s[FirstSolid(s)..]
  {
    if s != "" && IsSpace(s[0]) { TrimLeftIs(s[1..]); }
  }

  lemma {:induction false} TrimRightKeeps(s: string)
    requires s != "" && !IsSpace(s[0])
    ensures TrimRightSpace(s) != "" && TrimRightSpace(s)[0] == s[0]
  {
    if IsSpace(s[|s| - 1]) { TrimRightKeeps(s[..|s| - 1]); }
  }

  /** The first character of a trimmed text is its first that is no space. */
  lemma TrimFirst(s: string)
    ensures TrimSpace(s) == "" <==> FirstSolid(s) == |s|
    ensures FirstSolid(s) < |s| ==> TrimSpace(s) != "" && TrimSpace(s)[0] == s[FirstSolid(s)]
  {
    TrimLeftIs(s);
    if FirstSolid(s) < |s| { TrimRightKeeps(s[FirstSolid(s)..]); }
  }

  predicate AllSpace(s: string) {
    forall k :: 0 <= k < |s| ==> IsSpace(s[k])
  }

  lemma {:induction false} TrimLeftExact(s: string) returns (before: string)
    ensures s == before + TrimLeftSpace(s) && AllSpace(before)
    ensures TrimLeftSpace(s) != "" ==> !IsSpace(TrimLeftSpace(s)[0])
  {
    before := "";
    if s != "" && IsSpace(s[0]) {
      var more := TrimLeftExact(s[1..]);
      before := [s[0]] + more;
      assert s == [s[0]] + s[1..];
    }
  }

  lemma {:induction false} TrimRightExact(s: string) returns (after: string)
    ensures s == TrimRightSpace(s) + after && AllSpace(after)
    ensures var t := TrimRightSpace(s); t != "" ==> t[0] == s[0] && !IsSpace(t[|t| - 1])
  {
    after := "";
    if s != "" && IsSpace(s[|s| - 1]) {
      var more := TrimRightExact(s[..|s| - 1]);
      after := more + [s[|s| - 1]];
      assert s == s[..|s| - 1] + [s[|s| - 1]];
    }
  }

  /** strings.TrimSpace cuts off the spaces at both ends and nothing else. */
  lemma TrimExact(s: string) returns (before: string, after: string)
    ensures s == before + TrimSpace(s) + after && AllSpace(before) && AllSpace(after)
    ensures TrimSpace(s) != "" ==> !IsSpace(TrimSpace(s)[0]) && !IsSpace(TrimSpace(s)[|TrimSpace(s)| - 1])
  {
    before := TrimLeftExact(s);
    after := TrimRightExact(TrimLeftSpace(s));
  }

  // ----- lines -------------------------------------------------------------------------------

  lemma {:induction false} UnixWithoutBreaks(text: string)
    requires '\n' !in text
    ensures Unix(text) == text
    decreases |text|
  {
    if text != "" {
      assert |text| >= 2 ==> text[1] in text;
      UnixWithoutBreaks(text[1..]);
    }
  }

  lemma TrimCons(c: char, t: string)
    requires t != "" || c != '\r'
    ensures TrimSuffix([c] + t, "\r") == [c] + TrimSuffix(t, "\r")
  {
    var s := [c] + t;
    assert s[|s| - 1..] == [s[|s| - 1]];
    assert t != "" ==> t[|t| - 1..] == [s[|s| - 1]];
    assert t != "" ==> s[..|s| - 1] == [c] + t[..|t| - 1];
  }

  lemma {:induction false} UnixFirst(text: string, n: nat)
    requires n < |text| && text[n] == '\n' && forall k :: 0 <= k < n ==> text[k] != '\n'
    ensures Unix(text) == TrimSuffix(text[..n], "\r") + "\n" + Unix(text[n + 1..])
    decreases n
  {
    if n == 0 {
      assert TrimSuffix(text[..n], "\r") == "";
    } else if n == 1 && text[0] == '\r' {
      assert text[..n] == "\r" && TrimSuffix(text[..n], "\r") == "";
    } else {
      UnixFurther(text, n);
    }
  }

  lemma {:induction false} UnixFurther(text: string, n: nat)
    requires 0 < n < |text| && text[n] == '\n' && forall k :: 0 <= k < n ==> text[k] != '\n'
    requires n >= 2 || text[0] != '\r'
    ensures Unix(text) == TrimSuffix(text[..n], "\r") + "\n" + Unix(text[n + 1..])
    decreases n, 0
  {
    var c, tail := text[0], text[1..];
    UnixFirst(tail, n - 1);
    assert tail[n..] == text[n + 1..];
    assert text[..n] == [c] + tail[..n - 1];
    TrimCons(c, tail[..n - 1]);
    UnixCons(text);
    Prepend([c], TrimSuffix(tail[..n - 1], "\r"), "\n", Unix(text[n + 1..]));
  }

  lemma UnixCons(text: string)
    requires text != "" && (text[0] != '\r' || (|text| > 1 && text[1] != '\n'))
    ensures Unix(text) == [text[0]] + Unix(text[1..])
  {
  }

  lemma Prepend(a: string, b: string, c: string, d: string)
    ensures a + (b + c + d) == a + b + c + d
  {
  }

  lemma SplitFirst(s: string, rest: string)
    requires '\n' !in s
    ensures Split(s + "\n" + rest, '\n') == [s] + Split(rest, '\n')
  {
    var all := s + "\n" + rest;
    var n := Position(all, '\n');
    assert all[|s|] == '\n' && forall k :: 0 <= k < |s| ==> all[k] == s[k];
    assert n == |s| && all[..n] == s && all[n + 1..] == rest;
  }

  predicate AllClean(lines: seq<string>) {
    forall k :: 0 <= k < |lines| ==> CleanLine(lines[k])
  }

  lemma CleanSnoc(lines: seq<string>, line: string)
    ensures AllClean(lines + [line]) <==> AllClean(lines) && CleanLine(line)
  {
    var all := lines + [line];
    assert all[|lines|] == line && forall k :: 0 <= k < |lines| ==> all[k] == lines[k];
  }

  lemma SameLast<T>(a: seq<T>, x: T, b: seq<T>)
    ensures a + [x] == b + [x] <==> a == b
  {
    if a + [x] == b + [x] {
      assert a == (a + [x])[..|a|] && b == (b + [x])[..|b|];
    }
  }

  lemma LastLine(lines: seq<string>) returns (before: seq<string>, x: string)
    requires lines != []
    ensures lines == before + [x]
  {
    before, x := lines[..|lines| - 1], lines[|lines| - 1];
  }

  lemma SplitStep(text: string, n: nat)
    requires n == Position(text, '\n') < |text|
    ensures Split(text, '\n') == [text[..n]] + Split(text[n + 1..], '\n')
  {
  }

  lemma CleanEnd(text: string)
    requires CleanLine(text)
    ensures TrimSuffix(text, "\r") == text
  {
    if text != "" { assert !Forbidden(text[|text| - 1]); }
  }

  lemma RawFirst(text: string, n: nat)
    requires n == Position(text, '\n') < |text|
    ensures RawLines(text) == [TrimSuffix(text[..n], "\r")] + RawLines(text[n + 1..])
  {
    UnixFirst(text, n);
    assert '\n' !in TrimSuffix(text[..n], "\r");
    SplitFirst(TrimSuffix(text[..n], "\r"), Unix(text[n + 1..]));
  }

  lemma RawOnly(text: string)
    requires Position(text, '\n') == |text|
    ensures RawLines(text) == [text]
  {
    UnixWithoutBreaks(text);
  }

  function DropEmptyLast(lines: seq<string>): seq<string> {
    if lines != [] && lines[|lines| - 1] == "" then lines[..|lines| - 1] else lines
  }

  /** Where every line is clean, both policies see the same lines, but for an empty last one. */
  lemma {:induction false} LinesAgree(text: string)
    requires AllClean(RawLines(text))
    ensures PhysicalLines(text) == DropEmptyLast(RawLines(text))
    decreases |text|
  {
    var n := Position(text, '\n');
    if n == |text| {
      RawOnly(text);
      CleanEnd(RawLines(text)[0]);
    } else {
      RawFirst(text, n);
      AgreeFurther(RawLines(text), TrimSuffix(text[..n], "\r"), RawLines(text[n + 1..]));
      LinesAgree(text[n + 1..]);
      PhysicalFirst(text, n);
    }
  }

  lemma AgreeFurther(raw: seq<string>, first: string, tail: seq<string>)
    requires raw == [first] + tail && tail != []
    ensures AllClean(raw) ==> AllClean(tail)
    ensures DropEmptyLast(raw) == [first] + DropEmptyLast(tail)
  {
    assert forall k :: 0 <= k < |tail| ==> tail[k] == raw[k + 1];
  }

  lemma PhysicalFirst(text: string, n: nat)
    requires n == Position(text, '\n') < |text|
    ensures PhysicalLines(text) == [TrimSuffix(text[..n], "\r")] + PhysicalLines(text[n + 1..])
  {
  }

  // ----- the first header of a WireGuard profile ----------------------------------------------

  /** The first solid character of a line: nothing, a comment mark, or a section bracket. */
  predicate Quiet(line: string) {
    FirstSolid(line) == |line| || line[FirstSolid(line)] == '#'
  }

  predicate Bracketed(line: string) {
    FirstSolid(line) < |line| && line[FirstSolid(line)] == '['
  }

  lemma UncommentedFirst(raw: string)
    ensures Uncommented(raw) == "" ==> Quiet(raw)
    ensures Uncommented(raw) != "" && Uncommented(raw)[0] == '[' ==> Bracketed(raw)
  {
    var p := Position(raw, '#');
    TrimFirst(raw[..p]);
    SolidPrefix(raw, p);
  }

  lemma SolidIs(s: string, n: nat)
    requires n <= |s| && (n == |s| || !IsSpace(s[n])) && forall k :: 0 <= k < n ==> IsSpace(s[k])
    ensures FirstSolid(s) == n
  {
  }

  lemma SolidPrefix(s: string, p: nat)
    requires p <= |s|
    ensures FirstSolid(s[..p]) == if FirstSolid(s) < p then FirstSolid(s) else p
  {
    SolidIs(s[..p], if FirstSolid(s) < p then FirstSolid(s) else p);
  }

  /** The position of the first header line. */
  predicate HeaderAt(lines: seq<string>, k: nat) {
    && k < |lines| && Bracketed(lines[k])
    && forall j :: 0 <= j < k ==> Quiet(lines[j])
  }

  /** What parses into sections begins with quiet lines and then a header. */
  lemma {:induction false} FirstHeader(lower: char -> char, lines: seq<string>) returns (k: nat)
    requires ParseLines(lower, [], lines).Some? && ParseLines(lower, [], lines).value != []
    ensures HeaderAt(lines, k)
    decreases |lines|
  {
    UncommentedFirst(lines[0]);
    if Uncommented(lines[0]) == "" {
      var j := FirstHeader(lower, lines[1..]);
      k := j + 1;
      assert forall i :: 0 < i < k ==> lines[i] == lines[1..][i - 1];
    } else {
      k := 0;
    }
  }

  lemma {:induction false} ParsedClean(lower: char -> char, sections: seq<Section>, lines: seq<string>)
    requires ParseLines(lower, sections, lines).Some?
    ensures AllClean(lines)
    decreases |lines|
  {
    if lines != [] {
      ParsedClean(lower, ParseLine(lower, sections, lines[0]).value, lines[1..]);
      assert forall k :: 0 < k < |lines| ==> lines[k] == lines[1..][k - 1];
    }
  }

  // ----- what the OpenVPN reader makes of it ---------------------------------------------------

  /** The character that dooms a directive: a bracket, or a space that the tokenizer keeps. */
  predicate Dooming(c: char) {
    c == '[' || (IsSpace(c) && !Blank(c))
  }

  /** The first character that is no blank dooms the text. */
  predicate DoomedAt(s: string, i: nat) {
    && i < |s| && Dooming(s[i])
    && forall k :: 0 <= k < i ==> Blank(s[k])
  }

  ghost predicate Doomed(s: string) {
    exists i: nat :: DoomedAt(s, i)
  }

  lemma DoomedExtends(s: string, t: string)
    requires Doomed(s)
    ensures Doomed(s + t)
  {
    var i: nat :| DoomedAt(s, i);
    assert DoomedAt(s + t, i);
  }

  /** Leading blanks build no token and change no quoting. */
  lemma {:induction false} BlankStart(s: string, i: nat)
    requires i <= |s| && forall k :: 0 <= k < i ==> Blank(s[k])
    ensures QuotingAt(s, i) == PLAIN && BuilderAt(s, i) == Builder([], "", false)
  {
    if i > 0 { BlankStart(s, i - 1); }
  }

  lemma {:induction false} NoCommentBefore(s: string, i: nat, j: nat)
    requires j <= i < |s| && (forall k :: 0 <= k < i ==> Blank(s[k])) && s[i] != '#' && s[i] != ';'
    ensures ContentEnd(s, j) > i
    decreases i - j
  {
    if j < i { NoCommentBefore(s, i, j + 1); }
  }

  predicate Leads(b: Builder, c: char) {
    if b.tokens == [] then b.started && b.token != "" && b.token[0] == c
    else b.tokens[0] != "" && b.tokens[0][0] == c
  }

  lemma {:induction false} LeadingToken(s: string, i: nat, j: nat)
    requires DoomedAt(s, i) && i < j <= |s|
    ensures Leads(BuilderAt(s, j), s[i])
  {
    if j == i + 1 {
      BlankStart(s, i);
    } else {
      LeadingToken(s, i, j - 1);
    }
  }

  lemma ManagementLettered(d: string)
    ensures "management-" <= d ==> Lettered(d)
  {
    if "management-" <= d { assert d[0] == "management-"[0]; }
  }

  /** A doomed directive has no tokens, or a first token that no table names. */
  lemma DoomedDirective(r: Rules, s: string)
    requires Sane(r) && Doomed(s)
    ensures Directive(r, s).None?
  {
    var i: nat :| DoomedAt(s, i);
    NoCommentBefore(s, i, 0);
    LeadingToken(s, i, ContentEnd(s, 0));
    if Tokenize(s).Tokens? {
      var first := Tokenize(s).tokens[0];
      assert TrimDashes(first) == first;
      var directive := Lower(r.lower, first);
      assert directive[0] == s[i];
      assert !Lettered(directive);
      ManagementLettered(directive);
    }
  }

  /** A doomed fragment is refused, or stays pending. */
  lemma DoomedFragment(r: Rules, s: Reader, line: string)
    requires Sane(r) && (Doomed(s.logical) || (s.logical == "" && Doomed(line)))
    ensures var next := ReadFragment(r, s, line); next.None? || Doomed(next.value.logical)
  {
    match Continues(line)
    case Unterminated =>
    case ControlCharacter =>
    case Continued(fragment) =>
      ScannersAgree(line);
      if s.logical == "" { DoomedShorter(fragment); assert s.logical + fragment == fragment; }
      else { DoomedExtends(s.logical, fragment); }
    case Complete(content) =>
      if s.logical == "" { DoomedContent(line); assert s.logical + content == content; }
      else { DoomedExtends(s.logical, content); }
      DoomedDirective(r, s.logical + content);
  }

  lemma DoomedShorter(fragment: string)
    requires Doomed(fragment + "\\")
    ensures Doomed(fragment)
  {
    var i: nat :| DoomedAt(fragment + "\\", i);
    assert forall k :: 0 <= k < |fragment| ==> (fragment + "\\")[k] == fragment[k];
    assert DoomedAt(fragment, i);
  }

  lemma DoomedContent(line: string)
    requires Doomed(line)
    ensures Doomed(Content(line))
  {
    var i: nat :| DoomedAt(line, i);
    NoCommentBefore(line, i, 0);
    assert DoomedAt(Content(line), i);
  }

  /** A line is quiet, or begins after its blanks with a dooming character. */
  lemma QuietOrDoomed(line: string)
    requires CleanLine(line) && (Quiet(line) || Bracketed(line))
    ensures BlankOrComment(line) || Doomed(line)
    ensures Bracketed(line) ==> Doomed(line)
    ensures TrimSpace(line) == "" || TrimSpace(line)[0] == '#' || TrimSpace(line)[0] == '['
  {
    TrimFirst(line);
    var f := FirstSolid(line);
    var i := FirstUnblank(line);
    if i < f || Bracketed(line) { assert DoomedAt(line, i); }
  }

  function FirstUnblank(s: string): (n: nat)
    ensures n <= |s| && (n < |s| ==> !Blank(s[n])) && forall k :: 0 <= k < n ==> Blank(s[k])
  {
    if s != "" && Blank(s[0]) then 1 + FirstUnblank(s[1..]) else 0
  }

  predicate BlankOrComment(line: string) {
    FirstUnblank(line) == |line| || line[FirstUnblank(line)] == '#'
  }

  lemma BlankTokens(s: string)
    requires forall k :: 0 <= k < |s| ==> Blank(s[k])
    ensures Tokenize(s) == Tokens([])
  {
    BlankStart(s, |s|);
    BlankContent(s, |s|, 0);
  }

  lemma BlankContinues(line: string)
    requires BlankOrComment(line)
    ensures Continues(line) == Complete(line[..FirstUnblank(line)])
  {
    var i := FirstUnblank(line);
    BlankContent(line, i, 0);
    BlankStart(line, i);
    assert i == |line| ==> line[..i] == line;
  }

  lemma BlankDirective(r: Rules, s: string)
    requires forall k :: 0 <= k < |s| ==> Blank(s[k])
    ensures Directive(r, s) == Some("")
  {
    BlankTokens(s);
  }

  lemma NoDirective(r: Rules, s: Reader, logical: string)
    requires Directive(r, logical) == Some("") && s.logical == ""
    ensures var next := ReadDirective(r, s, logical); next.None? || next == Some(s)
  {
  }

  /** What the tokenizer sees as blank leaves the reader where it was. */
  lemma BlankFragment(r: Rules, s: Reader, line: string)
    requires s.logical == "" && BlankOrComment(line)
    ensures var next := ReadFragment(r, s, line); next.None? || next == Some(s)
  {
    BlankContinues(line);
    var content := line[..FirstUnblank(line)];
    BlankDirective(r, content);
    assert s.logical + content == content;
    NoDirective(r, s, content);
  }

  lemma {:induction false} BlankContent(s: string, i: nat, j: nat)
    requires j <= i <= |s| && (forall k :: 0 <= k < i ==> Blank(s[k])) && (i < |s| ==> s[i] == '#')
    ensures ContentEnd(s, j) == i
    decreases i - j
  {
    if j < i { BlankContent(s, i, j + 1); }
    else if i < |s| { BlankStart(s, i); }
  }

  /** A reader that holds a doomed directive never gets rid of it. */
  lemma DoomedLine(r: Rules, s: Reader, line: string)
    requires Sane(r) && Doomed(s.logical)
    ensures var next := ReadLine(r, s, line); next.None? || Doomed(next.value.logical)
  {
    if CleanLine(line) && s.block == "" { DoomedFragment(r, s, line); }
  }

  lemma {:induction false} DoomedLines(r: Rules, s: Reader, lines: seq<string>)
    requires Sane(r) && Doomed(s.logical)
    ensures var end := ReadLines(r, s, lines); end.None? || Doomed(end.value.logical)
    decreases |lines|
  {
    if lines != [] {
      DoomedLine(r, s, lines[0]);
      if ReadLine(r, s, lines[0]).Some? { DoomedLines(r, ReadLine(r, s, lines[0]).value, lines[1..]); }
    }
  }

  /** Up to its first header, a reader outside blocks with nothing pending stays there or is doomed. */
  lemma {:induction false} HeaderDooms(r: Rules, s: Reader, lines: seq<string>, k: nat)
    requires Sane(r) && HeaderAt(lines, k) && s.logical == "" && s.block == ""
    ensures var end := ReadLines(r, s, lines); end.None? || Doomed(end.value.logical)
    decreases k
  {
    var line := lines[0];
    if CleanLine(line) {
      QuietOrDoomed(line);
      assert BlockDelimiter(r.lower, TrimSpace(line)) == NoDelimiter;
      var next := ReadLine(r, s, line);
      if Doomed(line) {
        DoomedFragment(r, s, line);
        if next.Some? { DoomedLines(r, next.value, lines[1..]); }
      } else {
        BlankFragment(r, s, line);
        if next.Some? {
          assert forall j :: 0 < j <= k ==> lines[1..][j - 1] == lines[j];
          HeaderDooms(r, s, lines[1..], k - 1);
        }
      }
    }
  }

  lemma AcceptedParses(f: Formats, text: string)
    requires WireGuardAccepts(f, text).Some?
    ensures var parsed := ParseLines(f.lower, [], RawLines(text)); parsed.Some? && parsed.value != []
  {
  }

  lemma AcceptedHeader(f: Formats, text: string) returns (k: nat)
    requires WireGuardAccepts(f, text).Some?
    ensures HeaderAt(PhysicalLines(text), k)
  {
    AcceptedParses(f, text);
    k := HeaderOf(f.lower, RawLines(text));
    LinesAgree(text);
  }

  lemma HeaderOf(lower: char -> char, raw: seq<string>) returns (k: nat)
    requires raw != [] && ParseLines(lower, [], raw).Some? && ParseLines(lower, [], raw).value != []
    ensures AllClean(raw) && HeaderAt(DropEmptyLast(raw), k)
  {
    ParsedClean(lower, [], raw);
    k := FirstHeader(lower, raw);
    HeaderKept(raw, k);
  }

  lemma HeaderKept(lines: seq<string>, k: nat)
    requires HeaderAt(lines, k)
    ensures HeaderAt(DropEmptyLast(lines), k)
  {
  }

  lemma HeaderRefused(r: Rules, lines: seq<string>, k: nat)
    requires Sane(r) && HeaderAt(lines, k)
    ensures var end := ReadLines(r, START, lines); end.Some? ==> !Finished(end.value)
  {
    HeaderDooms(r, START, lines, k);
  }

  /** No text is accepted by both import policies. */
  lemma PoliciesDisjoint(r: Rules, f: Formats, text: string)
    requires Sane(r)
    ensures !(OpenVPNAccepts(r, text) && WireGuardAccepts(f, text).Some?)
  {
    if WireGuardAccepts(f, text).Some? {
      var k := AcceptedHeader(f, text);
      HeaderRefused(r, PhysicalLines(text), k);
    }
  }
}
