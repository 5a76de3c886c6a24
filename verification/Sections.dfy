/** What the WireGuard import policy accepts (internal/profiles/wireguard_policy.go), said of the text as
    a whole: its lines are blank, headers or assignments, and its sections are what is assigned under
    each header. The line by line parser of Policies finds sections exactly in such texts, and these. */
module Sections {
  import opened Contracts
  import opened Text
  import opened Library
  import opened Policies
  import opened Detection

  /** What a line says. */
  datatype Mark = Silent | Header(kind: string) | Assignment(key: string, value: string)

  ghost predicate Titles(lower: char -> char, line: string, kind: string) {
    exists x: string :: line == "[" + x + "]" && kind == Lower(lower, TrimSpace(x))
  }

  ghost predicate AssignmentOf(lower: char -> char, line: string, key: string, value: string) {
    exists k: string, v: string ::
      '=' !in k && line == k + "=" + v && key == Lower(lower, TrimSpace(k)) && value == TrimSpace(v)
  }

  /** A raw line without its comment and the spaces around it says this. */
  ghost predicate Marks(lower: char -> char, raw: string, mark: Mark) {
    var line := Uncommented(raw);
    match mark
    case Silent => line == ""
    case Header(kind) => Titles(lower, line, kind)
    case Assignment(key, value) => line != "" && line[0] != '[' && AssignmentOf(lower, line, key, value)
  }

  datatype Pair = Pair(key: string, value: string)

  /** A section as it is written: its kind, and what is assigned under its header, in order. */
  datatype Written = Written(kind: string, pairs: seq<Pair>)

  function PairMarks(pairs: seq<Pair>): seq<Mark> {
    if pairs == [] then []
    else
      var last := pairs[|pairs| - 1];
      PairMarks(pairs[..|pairs| - 1]) + [Assignment(last.key, last.value)]
  }

  function FlatMarks(written: seq<Written>): seq<Mark> {
    if written == [] then []
    else
      var last := written[|written| - 1];
      FlatMarks(written[..|written| - 1]) + ([Header(last.kind)] + PairMarks(last.pairs))
  }

  /** The marks of the lines that say something. */
  function Said(marks: seq<Mark>): seq<Mark> {
    if marks == [] then []
    else
      var before, last := Said(marks[..|marks| - 1]), marks[|marks| - 1];
      if last.Silent? then before else before + [last]
  }

  predicate Repeatable(key: string) {
    key == "address" || key == "dns"
  }

  function Keys(kind: string): set<string> {
    if kind == "peer" then PEER_KEYS else INTERFACE_KEYS
  }

  /** Every key belongs to this kind of section and has a value; only addresses and servers repeat. */
  ghost predicate LawfulPairs(kind: string, pairs: seq<Pair>) {
    && (forall k :: 0 <= k < |pairs| ==> pairs[k].key in Keys(kind) && pairs[k].value != "")
    && forall j, k :: 0 <= j < k < |pairs| && pairs[j].key == pairs[k].key ==> Repeatable(pairs[k].key)
  }

  /** Only the first section may be an interface. */
  ghost predicate Lawful(written: seq<Written>) {
    forall k :: 0 <= k < |written| ==>
      && (written[k].kind == "peer" || (written[k].kind == "interface" && k == 0))
      && LawfulPairs(written[k].kind, written[k].pairs)
  }

  /** The values assigned to a key, in order. */
  function Assigned(pairs: seq<Pair>, key: string): seq<string> {
    if pairs == [] then []
    else
      var before, last := Assigned(pairs[..|pairs| - 1], key), pairs[|pairs| - 1];
      if last.key == key then before + [last.value] else before
  }

  function KeysOf(pairs: seq<Pair>): set<string> {
    set k | 0 <= k < |pairs| :: pairs[k].key
  }

  function SectionOf(w: Written): Section {
    Section(w.kind, map key | key in KeysOf(w.pairs) :: Assigned(w.pairs, key))
  }

  function SectionsOf(written: seq<Written>): seq<Section> {
    seq(|written|, k requires 0 <= k < |written| => SectionOf(written[k]))
  }

  /** The text of these lines, laid out: what each of them says, and the sections that come of it. */
  datatype Layout = Layout(marks: seq<Mark>, written: seq<Written>)

  ghost predicate LaidOut(lower: char -> char, lines: seq<string>, w: Layout) {
    && AllClean(lines) && |w.marks| == |lines|
    && (forall k :: 0 <= k < |lines| ==> Marks(lower, lines[k], w.marks[k]))
    && Said(w.marks) == FlatMarks(w.written)
    && Lawful(w.written)
  }

  // ----- one line ----------------------------------------------------------------------------

  lemma HeaderExact(lower: char -> char, line: string, kind: string)
    requires line != "" && line[0] == '['
    ensures Titles(lower, line, kind) <==>
      HasSuffix(line, "]") && kind == Lower(lower, TrimSpace(TrimSuffix(TrimPrefix(line, "["), "]")))
  {
    var inner := TrimPrefix(line, "[");
    assert line == "[" + inner;
    if HasSuffix(line, "]") {
      assert line[|line| - 1..] == [line[|line| - 1]] == "]";
      assert inner != "" && inner[|inner| - 1..] == "]";
      assert line == "[" + inner[..|inner| - 1] + "]";
    }
    if x: string :| line == "[" + x + "]" && kind == Lower(lower, TrimSpace(x)) {
      assert inner == x + "]" && inner[|x|..] == "]" && line[|line| - 1..] == "]";
      assert TrimSuffix(inner, "]") == x;
    }
  }

  predicate FirstAt(line: string, c: char, n: nat) {
    n <= |line| && (n < |line| ==> line[n] == c) && forall k :: 0 <= k < n ==> line[k] != c
  }

  lemma AssignmentCut(lower: char -> char, line: string, n: nat, key: string, value: string)
    requires FirstAt(line, '=', n)
    ensures AssignmentOf(lower, line, key, value) <==>
      n < |line| && key == Lower(lower, TrimSpace(line[..n])) && value == TrimSpace(line[n + 1..])
  {
    if n < |line| {
      assert '=' !in line[..n] && line == line[..n] + "=" + line[n + 1..];
    }
    if k: string, v: string :| '=' !in k && line == k + "=" + v
                               && key == Lower(lower, TrimSpace(k)) && value == TrimSpace(v) {
      CutAt(line, n, k, v);
    }
  }

  lemma CutAt(line: string, n: nat, k: string, v: string)
    requires FirstAt(line, '=', n) && '=' !in k && line == k + "=" + v
    ensures n == |k| < |line| && line[..|k|] == k && line[|k| + 1..] == v
  {
    assert line[|k|] == '=';
    assert forall i :: 0 <= i < |k| ==> line[i] == k[i];
  }

  // ----- a layout with one more line -----------------------------------------------------------

  lemma SaidSnoc(marks: seq<Mark>, mark: Mark)
    ensures Said(marks + [mark]) == if mark.Silent? then Said(marks) else Said(marks) + [mark]
  {
    assert (marks + [mark])[..|marks|] == marks;
  }

  lemma FlatMarksSnoc(written: seq<Written>, w: Written)
    ensures FlatMarks(written + [w]) == FlatMarks(written) + ([Header(w.kind)] + PairMarks(w.pairs))
  {
    assert (written + [w])[..|written|] == written;
  }

  lemma PairMarksSnoc(pairs: seq<Pair>, p: Pair)
    ensures PairMarks(pairs + [p]) == PairMarks(pairs) + [Assignment(p.key, p.value)]
  {
    assert (pairs + [p])[..|pairs|] == pairs;
  }

  lemma AssignedSnoc(pairs: seq<Pair>, p: Pair, key: string)
    ensures Assigned(pairs + [p], key) ==
      if p.key == key then Assigned(pairs, key) + [p.value] else Assigned(pairs, key)
  {
    assert (pairs + [p])[..|pairs|] == pairs;
  }

  lemma {:induction false} AssignedSome(pairs: seq<Pair>, key: string)
    ensures Assigned(pairs, key) != [] <==> key in KeysOf(pairs)
  {
    if pairs != [] {
      var before, last := pairs[..|pairs| - 1], pairs[|pairs| - 1];
      AssignedSome(before, key);
      KeysOfSnoc(before, last);
      assert pairs == before + [last];
    }
  }

  lemma KeysOfSnoc(pairs: seq<Pair>, p: Pair)
    ensures KeysOf(pairs + [p]) == KeysOf(pairs) + {p.key}
  {
    var all := pairs + [p];
    assert all[|pairs|] == p;
    forall key | key in KeysOf(pairs) ensures key in KeysOf(all) {
      var k :| 0 <= k < |pairs| && pairs[k].key == key;
      assert all[k] == pairs[k];
    }
  }

  /** One more assignment in a section. */
  lemma SectionOfSnoc(kind: string, pairs: seq<Pair>, p: Pair)
    ensures var s := SectionOf(Written(kind, pairs));
      SectionOf(Written(kind, pairs + [p])) == s.(values := s.values[p.key := Values(s, p.key) + [p.value]])
  {
    var s, t := SectionOf(Written(kind, pairs)), SectionOf(Written(kind, pairs + [p]));
    KeysOfSnoc(pairs, p);
    AssignedSome(pairs, p.key);
    forall key | key in t.values ensures t.values[key] == s.values[p.key := Values(s, p.key) + [p.value]][key] {
      AssignedSnoc(pairs, p, key);
    }
  }

  lemma SectionsOfSnoc(written: seq<Written>, w: Written)
    ensures SectionsOf(written + [w]) == SectionsOf(written) + [SectionOf(w)]
  {
  }

  lemma LawfulSnoc(written: seq<Written>, w: Written)
    ensures Lawful(written + [w]) <==>
      && Lawful(written) && LawfulPairs(w.kind, w.pairs)
      && (w.kind == "peer" || (w.kind == "interface" && written == []))
  {
    var all := written + [w];
    assert all[|written|] == w && forall k :: 0 <= k < |written| ==> all[k] == written[k];
  }

  lemma LawfulPairsSnoc(kind: string, pairs: seq<Pair>, p: Pair)
    ensures LawfulPairs(kind, pairs + [p]) <==>
      && LawfulPairs(kind, pairs) && p.key in Keys(kind) && p.value != ""
      && (p.key in KeysOf(pairs) ==> Repeatable(p.key))
  {
    var all := pairs + [p];
    assert all[|pairs|] == p && forall k :: 0 <= k < |pairs| ==> all[k] == pairs[k];
  }

  /** The last section with one more assignment. */
  lemma FlatMarksGrown(written: seq<Written>, p: Pair)
    requires written != []
    ensures FlatMarks(Assign(written, p)) == FlatMarks(written) + [Assignment(p.key, p.value)]
  {
    var before, last := written[..|written| - 1], written[|written| - 1];
    assert written == before + [last];
    FlatMarksSnoc(before, last);
    FlatMarksSnoc(before, last.(pairs := last.pairs + [p]));
    PairMarksSnoc(last.pairs, p);
  }

  function Assign(written: seq<Written>, p: Pair): (grown: seq<Written>)
    requires written != []
  {
    var last := written[|written| - 1];
    written[..|written| - 1] + [last.(pairs := last.pairs + [p])]
  }

  lemma LawfulGrown(written: seq<Written>, p: Pair)
    requires written != []
    ensures var last := written[|written| - 1];
      Lawful(Assign(written, p)) <==>
        && Lawful(written) && p.key in Keys(last.kind) && p.value != ""
        && (p.key in KeysOf(last.pairs) ==> Repeatable(p.key))
  {
    var before, last := written[..|written| - 1], written[|written| - 1];
    assert written == before + [last];
    LawfulSnoc(before, last);
    LawfulSnoc(before, last.(pairs := last.pairs + [p]));
    LawfulPairsSnoc(last.kind, last.pairs, p);
  }

  lemma SectionsGrown(written: seq<Written>, p: Pair)
    requires written != []
    ensures var sections, last := SectionsOf(written), SectionOf(written[|written| - 1]);
      SectionsOf(Assign(written, p)) ==
        sections[..|sections| - 1] + [last.(values := last.values[p.key := Values(last, p.key) + [p.value]])]
  {
    var last := written[|written| - 1];
    SectionOfSnoc(last.kind, last.pairs, p);
    SectionsOfSnoc(written[..|written| - 1], last.(pairs := last.pairs + [p]));
  }

  /** A line that says this fits: only the first section is an interface, and what is assigned belongs
      to the section at hand. */
  ghost predicate Fits(written: seq<Written>, mark: Mark) {
    match mark
    case Silent => true
    case Header(kind) => kind == "peer" || (kind == "interface" && written == [])
    case Assignment(key, value) =>
      && written != [] && value != ""
      && key in Keys(written[|written| - 1].kind)
      && (key in KeysOf(written[|written| - 1].pairs) ==> Repeatable(key))
  }

  function Grown(written: seq<Written>, mark: Mark): seq<Written>
    requires mark.Assignment? ==> written != []
  {
    match mark
    case Silent => written
    case Header(kind) => written + [Written(kind, [])]
    case Assignment(key, value) => Assign(written, Pair(key, value))
  }

  function With(w: Layout, mark: Mark): Layout
    requires mark.Assignment? ==> w.written != []
  {
    Layout(w.marks + [mark], Grown(w.written, mark))
  }

  lemma FitsExact(marks: seq<Mark>, written: seq<Written>, mark: Mark)
    requires mark.Assignment? ==> written != []
    ensures Said(marks + [mark]) == FlatMarks(Grown(written, mark)) && Lawful(Grown(written, mark)) <==>
      Said(marks) == FlatMarks(written) && Lawful(written) && Fits(written, mark)
  {
    SaidSnoc(marks, mark);
    match mark
    case Silent =>
    case Header(kind) =>
      FlatMarksSnoc(written, Written(kind, []));
      SameLast(Said(marks), mark, FlatMarks(written));
      assert FlatMarks(written) + ([mark] + []) == FlatMarks(written) + [mark];
      LawfulSnoc(written, Written(kind, []));
    case Assignment(key, value) =>
      FlatMarksGrown(written, Pair(key, value));
      SameLast(Said(marks), mark, FlatMarks(written));
      LawfulGrown(written, Pair(key, value));
  }

  lemma MarksSnoc(lower: char -> char, lines: seq<string>, marks: seq<Mark>, x: string, mark: Mark)
    requires |marks| == |lines|
    ensures (forall k :: 0 <= k < |lines + [x]| ==> Marks(lower, (lines + [x])[k], (marks + [mark])[k])) <==>
      (forall k :: 0 <= k < |lines| ==> Marks(lower, lines[k], marks[k])) && Marks(lower, x, mark)
  {
    var l, m := lines + [x], marks + [mark];
    assert l[|lines|] == x && m[|lines|] == mark;
    assert forall k :: 0 <= k < |lines| ==> l[k] == lines[k] && m[k] == marks[k];
  }

  /** One more line is laid out in this way exactly when it fits. */
  lemma WithReads(lower: char -> char, lines: seq<string>, w: Layout, x: string, mark: Mark)
    requires mark.Assignment? ==> w.written != []
    requires |w.marks| == |lines|
    ensures LaidOut(lower, lines + [x], With(w, mark)) <==>
      LaidOut(lower, lines, w) && CleanLine(x) && Marks(lower, x, mark) && Fits(w.written, mark)
  {
    CleanSnoc(lines, x);
    MarksSnoc(lower, lines, w.marks, x, mark);
    FitsExact(w.marks, w.written, mark);
  }

  // ----- the parser along a layout -------------------------------------------------------------

  lemma HeaderStep(lower: char -> char, written: seq<Written>, x: string, kind: string)
    requires CleanLine(x) && Marks(lower, x, Header(kind)) && Fits(written, Header(kind))
    ensures ParseLine(lower, SectionsOf(written), x) == Some(SectionsOf(Grown(written, Header(kind))))
  {
    var line := Uncommented(x);
    assert line != "" && line[0] == '[' by {
      var inner: string :| line == "[" + inner + "]" && kind == Lower(lower, TrimSpace(inner));
    }
    HeaderExact(lower, line, kind);
    SectionsOfSnoc(written, Written(kind, []));
    assert SectionOf(Written(kind, [])) == Section(kind, map[]);
  }

  lemma KeyNamed(kind: string, key: string)
    requires key in Keys(kind)
    ensures key != "" && key !in HOOKS
  {
  }

  lemma ValuesExact(w: Written, key: string)
    ensures Values(SectionOf(w), key) == Assigned(w.pairs, key)
    ensures Values(SectionOf(w), key) != [] <==> key in KeysOf(w.pairs)
  {
    AssignedSome(w.pairs, key);
  }

  lemma AssignmentStep(lower: char -> char, written: seq<Written>, x: string, key: string, value: string)
    requires CleanLine(x) && Marks(lower, x, Assignment(key, value)) && Fits(written, Assignment(key, value))
    ensures ParseLine(lower, SectionsOf(written), x) == Some(SectionsOf(Grown(written, Assignment(key, value))))
  {
    var sections, last := SectionsOf(written), written[|written| - 1];
    ValuesExact(last, key);
    ValueStep(lower, sections, Uncommented(x), key, value);
    SectionsGrown(written, Pair(key, value));
  }

  lemma ValueStep(lower: char -> char, sections: seq<Section>, line: string, key: string, value: string)
    requires sections != [] && AssignmentOf(lower, line, key, value) && value != ""
    requires var current := sections[|sections| - 1];
      key in Keys(current.kind) && (Values(current, key) != [] ==> Repeatable(key))
    ensures var current := sections[|sections| - 1];
      var values := current.values[key := Values(current, key) + [value]];
      ValueLine(lower, sections, line) == Some(sections[..|sections| - 1] + [current.(values := values)])
  {
    AssignmentCut(lower, line, Position(line, '='), key, value);
    KeyNamed(sections[|sections| - 1].kind, key);
  }

  lemma WithStep(lower: char -> char, written: seq<Written>, x: string, mark: Mark)
    requires CleanLine(x) && Marks(lower, x, mark) && Fits(written, mark)
    ensures ParseLine(lower, SectionsOf(written), x) == Some(SectionsOf(Grown(written, mark)))
  {
    match mark
    case Silent =>
    case Header(kind) => HeaderStep(lower, written, x, kind);
    case Assignment(key, value) => AssignmentStep(lower, written, x, key, value);
  }

  /** What the parser does not refuse is clean, says something, and fits. */
  lemma MarkTaken(lower: char -> char, written: seq<Written>, x: string) returns (mark: Mark)
    requires ParseLine(lower, SectionsOf(written), x).Some?
    ensures CleanLine(x) && Marks(lower, x, mark) && Fits(written, mark)
  {
    var line := Uncommented(x);
    if line == "" {
      mark := Silent;
    } else if line[0] == '[' {
      mark := Header(Lower(lower, TrimSpace(TrimSuffix(TrimPrefix(line, "["), "]"))));
      HeaderExact(lower, line, mark.kind);
    } else {
      var n, last := Position(line, '='), written[|written| - 1];
      mark := Assignment(Lower(lower, TrimSpace(line[..n])), TrimSpace(line[n + 1..]));
      AssignmentCut(lower, line, n, mark.key, mark.value);
      ValuesExact(last, mark.key);
    }
  }

  lemma {:induction false} ParseLinesSnoc(lower: char -> char, s: seq<Section>, lines: seq<string>, x: string)
    ensures var before := ParseLines(lower, s, lines);
      ParseLines(lower, s, lines + [x]) == if before.None? then None else ParseLine(lower, before.value, x)
    decreases |lines|
  {
    var all := lines + [x];
    if lines == [] {
      assert all[1..] == [];
    } else {
      assert all[0] == lines[0] && all[1..] == lines[1..] + [x];
      if ParseLine(lower, s, lines[0]).Some? {
        ParseLinesSnoc(lower, ParseLine(lower, s, lines[0]).value, lines[1..], x);
      }
    }
  }

  /** What parses is laid out in some way. */
  lemma {:induction false} Laid(lower: char -> char, s: seq<Section>, lines: seq<string>) returns (w: Layout)
    requires s == [] && ParseLines(lower, s, lines).Some?
    ensures LaidOut(lower, lines, w) && ParseLines(lower, s, lines) == Some(SectionsOf(w.written))
    decreases |lines|
  {
    if lines == [] {
      w := Layout([], []);
      assert SectionsOf([]) == [];
    } else {
      var before, x := LastLine(lines);
      ParseLinesSnoc(lower, s, before, x);
      var u := Laid(lower, s, before);
      var mark := MarkTaken(lower, u.written, x);
      w := With(u, mark);
      WithReads(lower, before, u, x, mark);
      WithStep(lower, u.written, x, mark);
    }
  }

  /** A layout without its last line. */
  lemma LastMark(lower: char -> char, lines: seq<string>, x: string, v: Layout) returns (w: Layout, mark: Mark)
    requires |v.marks| == |lines| + 1 && Said(v.marks) == FlatMarks(v.written)
    ensures |w.marks| == |lines| && (mark.Assignment? ==> w.written != []) && v == With(w, mark)
  {
    var marks := v.marks[..|lines|];
    mark := v.marks[|lines|];
    assert v.marks == marks + [mark];
    SaidSnoc(marks, mark);
    if mark.Silent? {
      w := Layout(marks, v.written);
    } else {
      var written := Ungrown(Said(marks), mark, v.written);
      w := Layout(marks, written);
    }
  }

  lemma Ungrown(said: seq<Mark>, mark: Mark, written: seq<Written>) returns (before: seq<Written>)
    requires said + [mark] == FlatMarks(written) && !mark.Silent?
    ensures (mark.Assignment? ==> before != []) && written == Grown(before, mark)
  {
    assert written != [];
    var first, last := written[..|written| - 1], written[|written| - 1];
    assert written == first + [last];
    FlatMarksSnoc(first, last);
    var tail := [Header(last.kind)] + PairMarks(last.pairs);
    assert (said + [mark])[|said|] == mark;
    assert (FlatMarks(first) + tail)[|FlatMarks(first) + tail| - 1] == tail[|tail| - 1];
    if last.pairs == [] {
      before := first;
    } else {
      var pairs, p := last.pairs[..|last.pairs| - 1], last.pairs[|last.pairs| - 1];
      assert last.pairs == pairs + [p];
      PairMarksSnoc(pairs, p);
      before := first + [last.(pairs := pairs)];
    }
  }

  /** Whatever is laid out in some way parses, and into the sections of that layout. */
  lemma {:induction false} Layouts(lower: char -> char, s: seq<Section>, lines: seq<string>, v: Layout)
    requires s == [] && LaidOut(lower, lines, v)
    ensures ParseLines(lower, s, lines) == Some(SectionsOf(v.written))
    decreases |lines|
  {
    if lines == [] {
      NothingLaid(lower, lines, v);
    } else {
      var before, x := LastLine(lines);
      var w, mark := LastMark(lower, before, x, v);
      WithReads(lower, before, w, x, mark);
      Layouts(lower, s, before, w);
      WithStep(lower, w.written, x, mark);
      ParseLinesSnoc(lower, s, before, x);
    }
  }

  lemma NothingLaid(lower: char -> char, lines: seq<string>, v: Layout)
    requires lines == [] && LaidOut(lower, lines, v)
    ensures SectionsOf(v.written) == []
  {
  }

  /** parseWireGuardSections finds sections exactly in the lines that are laid out in some way, and
      finds those of the layout. */
  lemma SectionsExact(lower: char -> char, lines: seq<string>, sections: seq<Section>)
    ensures ParseLines(lower, [], lines) == Some(sections) <==>
      exists w :: LaidOut(lower, lines, w) && sections == SectionsOf(w.written)
  {
    if ParseLines(lower, [], lines) == Some(sections) {
      var w := Laid(lower, [], lines);
    }
    if w :| LaidOut(lower, lines, w) && sections == SectionsOf(w.written) {
      Layouts(lower, [], lines, w);
    }
  }

  /** ValidateWireGuardImport accepts exactly the texts whose lines are laid out in some way that gives
      valid sections, and reports the identity of the first section's private key. */
  lemma WireGuardExact(f: Formats, text: string, identity: Digest)
    ensures WireGuardAccepts(f, text) == Some(identity) <==>
      RightSize(text) && exists w :: LaidOut(f.lower, RawLines(text), w) && Identified(f, w, identity)
  {
    var lines := RawLines(text);
    if WireGuardAccepts(f, text) == Some(identity) {
      var sections := ParseLines(f.lower, [], lines).value;
      SectionsExact(f.lower, lines, sections);
      var w :| LaidOut(f.lower, lines, w) && sections == SectionsOf(w.written);
      assert Identified(f, w, identity);
    }
    if w :| LaidOut(f.lower, lines, w) && Identified(f, w, identity) {
      SectionsExact(f.lower, lines, SectionsOf(w.written));
    }
  }

  ghost predicate Identified(f: Formats, w: Layout, identity: Digest) {
    var sections := SectionsOf(w.written);
    ValidSections(f, sections) && identity == f.identity(SingleValue(sections[0], "privatekey"))
  }

  /** The lines are the parts, each but the last less one carriage return at its end. */
  predicate Converted(lines: seq<string>, parts: seq<string>) {
    && |lines| == |parts| > 0 && lines[|parts| - 1] == parts[|parts| - 1]
    && forall k :: 0 <= k < |parts| - 1 ==> lines[k] == TrimSuffix(parts[k], "\r")
  }

  lemma ConvertedFirst(lines: seq<string>, parts: seq<string>, part: string)
    requires Converted(lines, parts)
    ensures Converted([TrimSuffix(part, "\r")] + lines, [part] + parts)
  {
  }

  /** The raw lines are what stands between the line feeds. */
  lemma {:induction false} RawExact(text: string)
    ensures Converted(RawLines(text), Split(text, '\n'))
    decreases |text|
  {
    var n := Position(text, '\n');
    if n < |text| {
      RawFirst(text, n);
      RawExact(text[n + 1..]);
      SplitStep(text, n);
      ConvertedFirst(RawLines(text[n + 1..]), Split(text[n + 1..], '\n'), text[..n]);
    } else {
      RawOnly(text);
      assert Split(text, '\n') == [text];
    }
  }

  // ----- numbers -----------------------------------------------------------------------------

  function Digit(n: nat): char
    requires n < 10
  {
    '0' + n as char
  }

  /** The decimal numeral of a number. */
  function Numeral(n: nat): string {
    if n < 10 then [Digit(n)] else Numeral(n / 10) + [Digit(n % 10)]
  }

  function Zeros(z: nat): string {
    seq(z, _ => '0')
  }

  lemma DecimalSnoc(s: string, c: char)
    requires s != ""
    ensures Decimal(s + [c]) ==
      if '0' <= c <= '9' && Decimal(s).Some? then Some(10 * Decimal(s).value + c as int - '0' as int) else None
  {
    assert (s + [c])[..|s + [c]| - 1] == s;
  }

  lemma {:induction false} DecimalZeros(z: nat)
    requires z > 0
    ensures Decimal(Zeros(z)) == Some(0)
  {
    if z > 1 {
      DecimalZeros(z - 1);
      DecimalSnoc(Zeros(z - 1), '0');
      assert Zeros(z) == Zeros(z - 1) + ['0'];
    }
  }

  lemma {:induction false} DecimalOfNumeral(z: nat, n: nat)
    ensures Decimal(Zeros(z) + Numeral(n)) == Some(n)
  {
    if n >= 10 {
      DecimalOfNumeral(z, n / 10);
      DecimalSnoc(Zeros(z) + Numeral(n / 10), Digit(n % 10));
      assert Zeros(z) + Numeral(n) == Zeros(z) + Numeral(n / 10) + [Digit(n % 10)];
    } else if z > 0 {
      DecimalZeros(z);
      DecimalSnoc(Zeros(z), Digit(n));
    } else {
      assert Zeros(z) + Numeral(n) == [Digit(n)];
    }
  }

  lemma {:induction false} NumeralOfDecimal(value: string, n: nat) returns (z: nat)
    requires Decimal(value) == Some(n)
    ensures value == Zeros(z) + Numeral(n)
  {
    var before, c := value[..|value| - 1], value[|value| - 1];
    assert value == before + [c];
    if before == "" {
      z := 0;
    } else {
      var m := Decimal(before).value;
      z := NumeralOfDecimal(before, m);
      if m == 0 {
        z := z + 1;
        assert Zeros(z) == before;
      } else {
        assert Numeral(n) == Numeral(m) + [c];
      }
    }
  }

  /** The numbers accepted are written in decimal, perhaps after zeros, and in no other way. */
  lemma DecimalExact(value: string, n: nat)
    ensures Decimal(value) == Some(n) <==> exists z: nat :: value == Zeros(z) + Numeral(n)
  {
    if Decimal(value) == Some(n) {
      var z := NumeralOfDecimal(value, n);
    }
    if z: nat :| value == Zeros(z) + Numeral(n) {
      DecimalOfNumeral(z, n);
    }
  }
}
