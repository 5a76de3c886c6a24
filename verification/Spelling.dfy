/** How the words of an OpenVPN line may be written (internal/profiles/openvpn_policy.go): bare, with
    backslashes, in single or in double quotes, or in several of these ways joined. The tokenizer of
    ConfigText finds exactly the words that are written. */
module Spelling {
  import opened ConfigText

  /** A character between double quotes. */
  datatype Part = Literal(c: char) | Escaped(c: char)

  /** A blank between words, or a part of a word. */
  datatype Atom = Gap(c: char) | Bare(c: char) | Backslashed(c: char) | Single(text: string) | Double(parts: seq<Part>)

  /** What is left open: nothing, a backslash, a quotation, or a backslash in double quotes. */
  datatype Open = Closed | Slash | OpenSingle(text: string) | OpenDouble(parts: seq<Part>) | OpenSlash(parts: seq<Part>)

  datatype Pen = Pen(atoms: seq<Atom>, open: Open)

  // ----- the text ----------------------------------------------------------------------------

  function PartsText(parts: seq<Part>): string {
    if parts == [] then ""
    else
      PartsText(parts[..|parts| - 1]) +
      match parts[|parts| - 1]
      case Literal(c) => [c]
      case Escaped(c) => ['\\', c]
  }

  function AtomText(atom: Atom): string {
    match atom
    case Gap(c) => [c]
    case Bare(c) => [c]
    case Backslashed(c) => ['\\', c]
    case Single(text) => "'" + text + "'"
    case Double(parts) => "\"" + PartsText(parts) + "\""
  }

  function Flat(atoms: seq<Atom>): string {
    if atoms == [] then "" else Flat(atoms[..|atoms| - 1]) + AtomText(atoms[|atoms| - 1])
  }

  function OpenText(open: Open): string {
    match open
    case Closed => ""
    case Slash => "\\"
    case OpenSingle(text) => "'" + text
    case OpenDouble(parts) => "\"" + PartsText(parts)
    case OpenSlash(parts) => "\"" + PartsText(parts) + "\\"
  }

  function PenText(pen: Pen): string {
    Flat(pen.atoms) + OpenText(pen.open)
  }

  // ----- what may be written -----------------------------------------------------------------

  predicate Special(c: char) {
    c == '\\' || c == '\'' || c == '"' || Blank(c)
  }

  predicate GoodParts(parts: seq<Part>) {
    forall k :: 0 <= k < |parts| && parts[k].Literal? ==> parts[k].c != '"' && parts[k].c != '\\'
  }

  predicate GoodAtom(atom: Atom) {
    match atom
    case Gap(c) => Blank(c)
    case Bare(c) => !Special(c)
    case Backslashed(_) => true
    case Single(text) => '\'' !in text
    case Double(parts) => GoodParts(parts)
  }

  predicate GoodOpen(open: Open) {
    match open
    case Closed => true
    case Slash => true
    case OpenSingle(text) => '\'' !in text
    case OpenDouble(parts) => GoodParts(parts)
    case OpenSlash(parts) => GoodParts(parts)
  }

  predicate Mark(c: char) {
    c == '#' || c == ';'
  }

  /** Here a bare mark would begin a comment. */
  predicate Free(text: string) {
    text == "" || Blank(text[|text| - 1])
  }

  /** Every atom is well written, and no bare mark begins a comment. */
  ghost predicate GoodAtoms(atoms: seq<Atom>) {
    forall k :: 0 <= k < |atoms| ==>
      GoodAtom(atoms[k]) && (atoms[k].Bare? && Mark(atoms[k].c) ==> !Free(Flat(atoms[..k])))
  }

  ghost predicate GoodPen(pen: Pen) {
    GoodAtoms(pen.atoms) && GoodOpen(pen.open)
  }

  /** The line is what was written, and perhaps a comment. */
  ghost predicate Writes(line: string, pen: Pen, comment: string) {
    && line == PenText(pen) + comment && GoodPen(pen)
    && (comment != "" ==> pen.open.Closed? && Mark(comment[0]) && Free(PenText(pen)))
  }

  // ----- the words ---------------------------------------------------------------------------

  function PartsValue(parts: seq<Part>): string {
    if parts == [] then "" else PartsValue(parts[..|parts| - 1]) + [parts[|parts| - 1].c]
  }

  function Value(atom: Atom): string
    requires !atom.Gap?
  {
    match atom
    case Bare(c) => [c]
    case Backslashed(c) => [c]
    case Single(text) => text
    case Double(parts) => PartsValue(parts)
  }

  /** A word is at hand: it may grow. */
  predicate InWord(atoms: seq<Atom>) {
    atoms != [] && !atoms[|atoms| - 1].Gap?
  }

  /** After a gap an atom begins a word; otherwise it lengthens the last one. */
  function Words(atoms: seq<Atom>): (words: seq<string>)
    ensures InWord(atoms) ==> words != []
  {
    if atoms == [] then []
    else
      var before, last := atoms[..|atoms| - 1], atoms[|atoms| - 1];
      if last.Gap? then Words(before) else Longer(Words(before), InWord(before), Value(last))
  }

  function Longer(words: seq<string>, inWord: bool, value: string): (longer: seq<string>)
    requires inWord ==> words != []
    ensures longer != []
  {
    if inWord then words[..|words| - 1] + [words[|words| - 1] + value] else words + [value]
  }

  function Outcome(pen: Pen): Tokenized {
    match pen.open
    case Closed => Tokens(Words(pen.atoms))
    case Slash => Dangling
    case OpenSlash(_) => Dangling
    case OpenSingle(_) => Unclosed
    case OpenDouble(_) => Unclosed
  }

  // ----- one more character ------------------------------------------------------------------

  function Extend(pen: Pen, c: char): Pen {
    match pen.open
    case Closed =>
      if c == '\\' then pen.(open := Slash)
      else if c == '\'' then pen.(open := OpenSingle(""))
      else if c == '"' then pen.(open := OpenDouble([]))
      else pen.(atoms := pen.atoms + [if Blank(c) then Gap(c) else Bare(c)])
    case Slash => Pen(pen.atoms + [Backslashed(c)], Closed)
    case OpenSingle(text) =>
      if c == '\'' then Pen(pen.atoms + [Single(text)], Closed) else pen.(open := OpenSingle(text + [c]))
    case OpenDouble(parts) =>
      if c == '\\' then pen.(open := OpenSlash(parts))
      else if c == '"' then Pen(pen.atoms + [Double(parts)], Closed)
      else pen.(open := OpenDouble(parts + [Literal(c)]))
    case OpenSlash(parts) => pen.(open := OpenDouble(parts + [Escaped(c)]))
  }

  function QuotingOf(open: Open): Quoting {
    match open
    case Closed => PLAIN
    case Slash => Quoting(false, false, true)
    case OpenSingle(_) => Quoting(true, false, false)
    case OpenDouble(_) => Quoting(false, true, false)
    case OpenSlash(_) => Quoting(false, true, true)
  }

  lemma FlatSnoc(atoms: seq<Atom>, atom: Atom)
    ensures Flat(atoms + [atom]) == Flat(atoms) + AtomText(atom)
    ensures !atom.Gap? ==> Words(atoms + [atom]) == Longer(Words(atoms), InWord(atoms), Value(atom))
    ensures atom.Gap? ==> Words(atoms + [atom]) == Words(atoms)
  {
    assert (atoms + [atom])[..|atoms|] == atoms;
  }

  lemma PartsSnoc(parts: seq<Part>, part: Part)
    ensures PartsText(parts + [part]) == PartsText(parts) + (if part.Literal? then [part.c] else ['\\', part.c])
    ensures PartsValue(parts + [part]) == PartsValue(parts) + [part.c]
    ensures GoodParts(parts + [part]) <==>
      GoodParts(parts) && (part.Literal? ==> part.c != '"' && part.c != '\\')
  {
    var all := parts + [part];
    assert all[..|parts|] == parts && all[|parts|] == part;
    assert forall k :: 0 <= k < |parts| ==> all[k] == parts[k];
  }

  /** What one more character adds: it lengthens what is open, or completes an atom. */
  lemma ExtendText(pen: Pen, c: char)
    ensures PenText(Extend(pen, c)) == PenText(pen) + [c]
  {
    var next := Extend(pen, c);
    if next.atoms == pen.atoms {
      OpenLonger(pen, c);
      assert Flat(pen.atoms) + (OpenText(pen.open) + [c]) == Flat(pen.atoms) + OpenText(pen.open) + [c];
    } else {
      var atom := next.atoms[|pen.atoms|];
      AtomComplete(pen, c, atom);
      FlatSnoc(pen.atoms, atom);
      assert Flat(pen.atoms) + (OpenText(pen.open) + [c]) + "" == Flat(pen.atoms) + OpenText(pen.open) + [c];
    }
  }

  lemma OpenLonger(pen: Pen, c: char)
    requires Extend(pen, c).atoms == pen.atoms
    ensures OpenText(Extend(pen, c).open) == OpenText(pen.open) + [c]
  {
    match pen.open
    case OpenDouble(parts) => PartsSnoc(parts, Literal(c));
    case OpenSlash(parts) => PartsSnoc(parts, Escaped(c));
    case _ =>
  }

  lemma AtomComplete(pen: Pen, c: char, atom: Atom)
    requires Extend(pen, c).atoms == pen.atoms + [atom]
    ensures AtomText(atom) == OpenText(pen.open) + [c] && Extend(pen, c).open.Closed?
  {
    assert (pen.atoms + [atom])[|pen.atoms|] == atom;
    match pen.open
    case OpenDouble(parts) => assert atom == Double(parts);
    case OpenSingle(text) => assert atom == Single(text);
    case _ =>
  }

  lemma ExtendQuoting(pen: Pen, c: char)
    ensures QuotingOf(Extend(pen, c).open) == Next(QuotingOf(pen.open), c)
  {
  }

  lemma GoodAtomsSnoc(atoms: seq<Atom>, atom: Atom)
    ensures GoodAtoms(atoms + [atom]) <==>
      GoodAtoms(atoms) && GoodAtom(atom) && (atom.Bare? && Mark(atom.c) ==> !Free(Flat(atoms)))
  {
    var all := atoms + [atom];
    assert all[..|atoms|] == atoms && all[|atoms|] == atom;
    assert forall k :: 0 <= k < |atoms| ==> all[k] == atoms[k] && all[..k] == atoms[..k];
  }

  /** What is written stays well written, unless a comment begins. */
  lemma ExtendGood(pen: Pen, c: char)
    requires GoodPen(pen) && !(pen.open.Closed? && Mark(c) && Free(PenText(pen)))
    ensures GoodPen(Extend(pen, c))
  {
    match pen.open
    case Closed =>
      assert PenText(pen) == Flat(pen.atoms);
      GoodAtomsSnoc(pen.atoms, if Blank(c) then Gap(c) else Bare(c));
    case Slash => GoodAtomsSnoc(pen.atoms, Backslashed(c));
    case OpenSingle(text) => GoodAtomsSnoc(pen.atoms, Single(text));
    case OpenDouble(parts) =>
      GoodAtomsSnoc(pen.atoms, Double(parts));
      PartsSnoc(parts, Literal(c));
    case OpenSlash(parts) => PartsSnoc(parts, Escaped(c));
  }

  /** What the tokenizer has built: the words, and whether one is at hand. */
  predicate Builds(b: Builder, words: seq<string>, inWord: bool) {
    b.started == inWord && if inWord then words == b.tokens + [b.token] else words == b.tokens && b.token == ""
  }

  /** The value written so far of what is open. */
  function OpenValue(open: Open): string
    requires !open.Closed?
  {
    match open
    case Slash => ""
    case OpenSingle(text) => text
    case OpenDouble(parts) => PartsValue(parts)
    case OpenSlash(parts) => PartsValue(parts)
  }

  predicate BuildsPen(b: Builder, pen: Pen) {
    if pen.open.Closed? then Builds(b, Words(pen.atoms), InWord(pen.atoms))
    else Builds(b, Longer(Words(pen.atoms), InWord(pen.atoms), OpenValue(pen.open)), true)
  }

  lemma LongerTwice(words: seq<string>, inWord: bool, a: string, b: string)
    requires inWord ==> words != []
    ensures Longer(Longer(words, inWord, a), true, b) == Longer(words, inWord, a + b)
  {
    var longer := Longer(words, inWord, a);
    assert longer[..|longer| - 1] == if inWord then words[..|words| - 1] else words;
    if inWord {
      var last := words[|words| - 1];
      assert last + a + b == last + (a + b);
    }
  }

  lemma BuildsLonger(b: Builder, words: seq<string>, inWord: bool, value: string)
    requires Builds(b, words, inWord) && (inWord ==> words != [])
    ensures Builds(b.(token := b.token + value, started := true), Longer(words, inWord, value), true)
  {
    if !inWord { assert "" + value == value; }
  }

  lemma OpeningBuilds(atoms: seq<Atom>, b: Builder, open: Open)
    requires Builds(b, Words(atoms), InWord(atoms)) && !open.Closed? && OpenValue(open) == ""
    ensures BuildsPen(b.(started := true), Pen(atoms, open))
  {
    BuildsLonger(b, Words(atoms), InWord(atoms), "");
    assert b.token + "" == b.token;
  }

  lemma GapBuilds(atoms: seq<Atom>, b: Builder, c: char)
    requires Builds(b, Words(atoms), InWord(atoms))
    ensures BuildsPen(Flush(b), Pen(atoms + [Gap(c)], Closed))
  {
    FlatSnoc(atoms, Gap(c));
  }

  lemma AtomBuilds(atoms: seq<Atom>, b: Builder, atom: Atom)
    requires !atom.Gap? && Builds(b, Longer(Words(atoms), InWord(atoms), Value(atom)), true)
    ensures BuildsPen(b, Pen(atoms + [atom], Closed))
  {
    FlatSnoc(atoms, atom);
  }

  lemma ClosedBuilds(atoms: seq<Atom>, b: Builder, c: char)
    requires Builds(b, Words(atoms), InWord(atoms))
    ensures BuildsPen(Append(b, PLAIN, c), Extend(Pen(atoms, Closed), c))
  {
    if c == '\\' {
      OpeningBuilds(atoms, b, Slash);
    } else if c == '\'' {
      OpeningBuilds(atoms, b, OpenSingle(""));
    } else if c == '"' {
      OpeningBuilds(atoms, b, OpenDouble([]));
    } else if Blank(c) {
      GapBuilds(atoms, b, c);
    } else {
      BuildsLonger(b, Words(atoms), InWord(atoms), [c]);
      AtomBuilds(atoms, b.(token := b.token + [c], started := true), Bare(c));
    }
  }

  lemma SlashBuilds(atoms: seq<Atom>, b: Builder, c: char)
    requires BuildsPen(b, Pen(atoms, Slash))
    ensures BuildsPen(b.(token := b.token + [c], started := true), Pen(atoms + [Backslashed(c)], Closed))
  {
    Grows(b, Words(atoms), InWord(atoms), "", c);
    assert "" + [c] == [c];
    AtomBuilds(atoms, b.(token := b.token + [c], started := true), Backslashed(c));
  }

  lemma SingleBuilds(atoms: seq<Atom>, b: Builder, text: string, c: char)
    requires BuildsPen(b, Pen(atoms, OpenSingle(text)))
    ensures BuildsPen(b.(token := b.token + [c], started := true), Pen(atoms, OpenSingle(text + [c])))
    ensures BuildsPen(b.(started := true), Pen(atoms + [Single(text)], Closed))
  {
    Grows(b, Words(atoms), InWord(atoms), text, c);
    AtomBuilds(atoms, b.(started := true), Single(text));
  }

  lemma DoubleBuilds(atoms: seq<Atom>, b: Builder, parts: seq<Part>, open: Open, part: Part)
    requires open == OpenDouble(parts) || open == OpenSlash(parts)
    requires BuildsPen(b, Pen(atoms, open))
    ensures BuildsPen(b.(token := b.token + [part.c], started := true), Pen(atoms, OpenDouble(parts + [part])))
    ensures BuildsPen(b.(started := true), Pen(atoms + [Double(parts)], Closed))
    ensures BuildsPen(b.(started := true), Pen(atoms, OpenSlash(parts)))
  {
    Grows(b, Words(atoms), InWord(atoms), PartsValue(parts), part.c);
    PartsSnoc(parts, part);
    AtomBuilds(atoms, b.(started := true), Double(parts));
  }

  lemma ExtendBuilds(pen: Pen, b: Builder, c: char)
    requires BuildsPen(b, pen)
    ensures BuildsPen(Append(b, QuotingOf(pen.open), c), Extend(pen, c))
  {
    match pen.open
    case Closed => ClosedBuilds(pen.atoms, b, c);
    case Slash => SlashBuilds(pen.atoms, b, c);
    case OpenSingle(text) => SingleBuilds(pen.atoms, b, text, c);
    case OpenDouble(parts) => DoubleBuilds(pen.atoms, b, parts, pen.open, Literal(c));
    case OpenSlash(parts) => DoubleBuilds(pen.atoms, b, parts, pen.open, Escaped(c));
  }

  lemma Grows(b: Builder, words: seq<string>, inWord: bool, value: string, c: char)
    requires (inWord ==> words != []) && Builds(b, Longer(words, inWord, value), true)
    ensures Builds(b.(token := b.token + [c], started := true), Longer(words, inWord, value + [c]), true)
  {
    BuildsLonger(b, Longer(words, inWord, value), true, [c]);
    LongerTwice(words, inWord, value, [c]);
  }

  // ----- a whole line ------------------------------------------------------------------------

  lemma {:induction false} NoneBefore(line: string, i: nat, j: nat)
    requires i <= j < |line| && j < ContentEnd(line, i)
    ensures !StartsComment(QuotingAt(line, j), line, j)
    decreases j - i
  {
    if i < j { NoneBefore(line, i + 1, j); }
  }

  /** One more character, no comment beginning with it. */
  lemma PenForward(before: Pen, c: char) returns (pen: Pen)
    requires GoodPen(before) && !(before.open.Closed? && Mark(c) && Free(PenText(before)))
    ensures GoodPen(pen) && PenText(pen) == PenText(before) + [c]
    ensures QuotingOf(pen.open) == Next(QuotingOf(before.open), c)
  {
    pen := Extend(before, c);
    ExtendText(before, c);
    ExtendGood(before, c);
  }

  /** Within the content the next character begins no comment. */
  lemma NoComment(line: string, i: nat, pen: Pen)
    requires i < |line| && i < ContentEnd(line, 0)
    requires PenText(pen) == line[..i] && QuotingOf(pen.open) == QuotingAt(line, i)
    ensures !(pen.open.Closed? && Mark(line[i]) && Free(PenText(pen)))
  {
    NoneBefore(line, 0, i);
    assert i > 0 ==> line[..i][i - 1] == line[i - 1];
  }

  lemma OneMore(line: string, i: nat)
    requires 0 < i <= |line|
    ensures line[..i] == line[..i - 1] + [line[i - 1]]
  {
  }

  lemma {:induction false} WritingUpTo(line: string, i: nat) returns (pen: Pen)
    requires i <= ContentEnd(line, 0)
    ensures GoodPen(pen) && PenText(pen) == line[..i] && QuotingOf(pen.open) == QuotingAt(line, i)
  {
    if i == 0 {
      pen := Pen([], Closed);
    } else {
      var before := WritingUpTo(line, i - 1);
      NoComment(line, i - 1, before);
      OneMore(line, i);
      pen := PenForward(before, line[i - 1]);
    }
  }

  /** Every line is written in some way. */
  lemma SomeWriting(line: string) returns (pen: Pen, comment: string)
    ensures Writes(line, pen, comment)
  {
    var n := ContentEnd(line, 0);
    pen := WritingUpTo(line, n);
    comment := line[n..];
    EndIsComment(line, 0);
    assert line == line[..n] + line[n..];
    assert n > 0 ==> line[..n][n - 1] == line[n - 1];
  }

  /** What is open without its last character. */
  lemma OpenBack(atoms: seq<Atom>, open: Open) returns (before: Open, c: char)
    requires GoodOpen(open) && !open.Closed?
    ensures GoodOpen(before) && Extend(Pen(atoms, before), c) == Pen(atoms, open)
    ensures before.Closed? ==> !Mark(c)
  {
    match open
    case Slash => before, c := Closed, '\\';
    case OpenSingle(text) =>
      if text == "" {
        before, c := Closed, '\'';
      } else {
        before, c := OpenSingle(text[..|text| - 1]), text[|text| - 1];
        assert text == text[..|text| - 1] + [c] && c in text;
      }
    case OpenDouble(parts) =>
      if parts == [] {
        before, c := Closed, '"';
      } else {
        var last := parts[|parts| - 1];
        before := if last.Literal? then OpenDouble(parts[..|parts| - 1]) else OpenSlash(parts[..|parts| - 1]);
        c := last.c;
        assert parts == parts[..|parts| - 1] + [last];
      }
    case OpenSlash(parts) => before, c := OpenDouble(parts), '\\';
  }

  /** What is written without its last character. */
  lemma PenBack(pen: Pen) returns (before: Pen, c: char)
    requires GoodPen(pen) && pen != Pen([], Closed)
    ensures GoodPen(before) && pen == Extend(before, c)
    ensures before.open.Closed? && Mark(c) ==> !Free(PenText(before))
  {
    if pen.open.Closed? {
      var atoms, last := pen.atoms[..|pen.atoms| - 1], pen.atoms[|pen.atoms| - 1];
      assert pen.atoms == atoms + [last];
      GoodAtomsSnoc(atoms, last);
      match last
      case Gap(d) => before, c := Pen(atoms, Closed), d;
      case Bare(d) =>
        before, c := Pen(atoms, Closed), d;
        assert PenText(before) == Flat(atoms);
      case Backslashed(d) => before, c := Pen(atoms, Slash), d;
      case Single(text) => before, c := Pen(atoms, OpenSingle(text)), '\'';
      case Double(parts) => before, c := Pen(atoms, OpenDouble(parts)), '"';
    } else {
      var open;
      open, c := OpenBack(pen.atoms, pen.open);
      before := Pen(pen.atoms, open);
    }
  }

  /** Along one character, what is built follows what is written. */
  ghost predicate Carries(before: Pen, c: char, pen: Pen) {
    && PenText(pen) == PenText(before) + [c]
    && QuotingOf(pen.open) == Next(QuotingOf(before.open), c)
    && forall b :: BuildsPen(b, before) ==> BuildsPen(Append(b, QuotingOf(before.open), c), pen)
  }

  lemma PenCarried(pen: Pen) returns (before: Pen, c: char)
    requires GoodPen(pen) && pen != Pen([], Closed)
    ensures GoodPen(before) && Carries(before, c, pen)
    ensures before.open.Closed? && Mark(c) ==> !Free(PenText(before))
  {
    before, c := PenBack(pen);
    ExtendText(before, c);
    forall b | BuildsPen(b, before) ensures BuildsPen(Append(b, QuotingOf(before.open), c), pen) {
      ExtendBuilds(before, b, c);
    }
  }

  /** After n characters the scanners know what is written, and no comment began before. */
  ghost predicate ReadAs(line: string, n: nat, pen: Pen)
    requires n <= |line|
  {
    && QuotingAt(line, n) == QuotingOf(pen.open) && BuildsPen(BuilderAt(line, n), pen)
    && forall j :: 0 <= j < n ==> !StartsComment(QuotingAt(line, j), line, j)
  }

  lemma ReadFurther(line: string, n: nat, before: Pen, c: char, pen: Pen)
    requires 0 < n <= |line| && line[n - 1] == c && ReadAs(line, n - 1, before) && Carries(before, c, pen)
    requires !StartsComment(QuotingAt(line, n - 1), line, n - 1)
    ensures ReadAs(line, n, pen)
  {
  }

  lemma {:induction false} WrittenAt(line: string, n: nat, pen: Pen)
    requires n <= |line| && line[..n] == PenText(pen) && GoodPen(pen)
    ensures ReadAs(line, n, pen)
    decreases n
  {
    if pen != Pen([], Closed) {
      var before, c := PenCarried(pen);
      PrefixBack(line, n, PenText(before), c);
      WrittenAt(line, n - 1, before);
      NoMark(line, n - 1, before);
      ReadFurther(line, n, before, c, pen);
    } else {
      NothingRead(line, n);
    }
  }

  lemma NothingRead(line: string, n: nat)
    requires n <= |line| && line[..n] == PenText(Pen([], Closed))
    ensures ReadAs(line, n, Pen([], Closed))
  {
    assert n == 0;
  }

  lemma PrefixBack(line: string, n: nat, text: string, c: char)
    requires n <= |line| && line[..n] == text + [c]
    ensures n > 0 && line[n - 1] == c && line[..n - 1] == text
  {
    assert line[..n][n - 1] == line[n - 1] && line[..n][..n - 1] == line[..n - 1];
  }

  lemma NoMark(line: string, i: nat, before: Pen)
    requires i < |line| && PenText(before) == line[..i] && QuotingAt(line, i) == QuotingOf(before.open)
    requires before.open.Closed? && Mark(line[i]) ==> !Free(PenText(before))
    ensures !StartsComment(QuotingAt(line, i), line, i)
  {
    assert i > 0 ==> line[..i][i - 1] == line[i - 1];
  }

  lemma {:induction false} EndsAt(line: string, n: nat, i: nat)
    requires i <= n <= |line| && forall j :: i <= j < n ==> !StartsComment(QuotingAt(line, j), line, j)
    requires n < |line| ==> StartsComment(QuotingAt(line, n), line, n)
    ensures ContentEnd(line, i) == n
    decreases n - i
  {
    if i < n { EndsAt(line, n, i + 1); }
  }

  /** The tokens of a line are the words that are written in it. */
  lemma WritingTokens(line: string, pen: Pen, comment: string)
    requires Writes(line, pen, comment)
    ensures Tokenize(line) == Outcome(pen) && Content(line) == PenText(pen)
  {
    var n := |PenText(pen)|;
    assert line[..n] == PenText(pen) && line[n..] == comment;
    WrittenAt(line, n, pen);
    assert n < |line| ==> line[n] == comment[0];
    assert n < |line| && n > 0 ==> line[n - 1] == PenText(pen)[n - 1];
    EndsAt(line, n, 0);
  }

  /** tokenizeOpenVPNLine, with no scanner in it: the tokens are the words in which the line is written;
      an escape dangles, or a quote is open, exactly when the writing ends in one. */
  lemma TokensExact(line: string, result: Tokenized)
    ensures Tokenize(line) == result <==> exists pen, comment :: Writes(line, pen, comment) && result == Outcome(pen)
  {
    var pen, comment := SomeWriting(line);
    WritingTokens(line, pen, comment);
    if other, rest :| Writes(line, other, rest) && result == Outcome(other) {
      WritingTokens(line, other, rest);
    }
  }
}
