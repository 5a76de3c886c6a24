/** The two scanners of OpenVPN configuration lines (internal/profiles/openvpn_policy.go): one decides
    whether a line continues and where its content ends, the other splits it into tokens. The copy
    in internal/tunnel/openvpn_config.go differs only in refusing control characters. */
module ConfigText {
  import opened Contracts

  /** What both scanners remember of quotes and escapes. */
  datatype Quoting = Quoting(inSingle: bool, inDouble: bool, escaped: bool)

  const PLAIN := Quoting(false, false, false)

  function Blank(c: char): bool {
    c == ' ' || c == '\t'
  }

  /** A comment starts at an unquoted, unescaped mark at the start of the line or after a blank. */
  predicate StartsComment(q: Quoting, line: string, i: nat)
    requires i < |line|
  {
    && !q.escaped && !q.inSingle && !q.inDouble
    && (line[i] == '#' || line[i] == ';')
    && (i == 0 || Blank(line[i - 1]))
  }

  function Next(q: Quoting, c: char): Quoting {
    if q.escaped then q.(escaped := false)
    else if c == '\\' && !q.inSingle then q.(escaped := true)
    else if c == '\'' && !q.inDouble then q.(inSingle := !q.inSingle)
    else if c == '"' && !q.inSingle then q.(inDouble := !q.inDouble)
    else q
  }

  /** The quoting before position i, if no comment started before. */
  function QuotingAt(line: string, i: nat): Quoting
    requires i <= |line|
  {
    if i == 0 then PLAIN else Next(QuotingAt(line, i - 1), line[i - 1])
  }

  /** The length of the line's content: up to its comment, or the whole line. */
  function ContentEnd(line: string, i: nat): (end: nat)
    requires i <= |line|
    ensures i <= end <= |line|
    decreases |line| - i
  {
    if i == |line| || StartsComment(QuotingAt(line, i), line, i) then i else ContentEnd(line, i + 1)
  }

  function Content(line: string): string {
    line[..ContentEnd(line, 0)]
  }

  // ----- the continuation scan ---------------------------------------------------------------

  datatype Continuation = Continued(fragment: string) | Complete(content: string) | Unterminated | ControlCharacter

  /** What the scan decides: a comment never continues a line; without one, the line continues
      exactly when its last character is an escaping backslash, which is then cut off. */
  function Continues(line: string): Continuation {
    var end := ContentEnd(line, 0);
    var q := QuotingAt(line, end);
    if end < |line| then Complete(line[..end])
    else if q.escaped then Continued(line[..|line| - 1])
    else if q.inSingle || q.inDouble then Unterminated
    else Complete(line)
  }

  function TrimBlanks(s: string): string {
    if s != "" && Blank(s[|s| - 1]) then TrimBlanks(s[..|s| - 1]) else s
  }

  /** Whether the text ends in an escaping backslash when quotes are ignored. */
  function EscapedAfter(s: string): bool {
    s != "" && !EscapedAfter(s[..|s| - 1]) && s[|s| - 1] == '\\'
  }

  lemma EndIsComment(line: string, i: nat)
    requires i <= |line|
    ensures var end := ContentEnd(line, i); end == |line| || StartsComment(QuotingAt(line, end), line, end)
    decreases |line| - i
  {
  }

  /** Before a comment no escape is pending, with or without quotes; without a comment, a pending
      escape is the last character. */
  lemma PendingEscape(line: string)
    ensures var end := ContentEnd(line, 0); end < |line| ==> !EscapedAfter(line[..end])
    ensures QuotingAt(line, |line|).escaped ==> line != "" && line[|line| - 1] == '\\'
  {
    EndIsComment(line, 0);
  }

  /** The second half of the scan, after the quoting pass has found the comment or the end. */
  method Conclude(line: string, commentAt: int, q: Quoting) returns (result: Continuation)
    requires commentAt == -1 ==> ContentEnd(line, 0) == |line|
    requires commentAt != -1 ==> 0 <= commentAt < |line| && commentAt == ContentEnd(line, 0)
    requires q == QuotingAt(line, ContentEnd(line, 0))
    ensures result == Continues(line)
  {
    EndIsComment(line, 0);
    PendingEscape(line);
    var content, escaped := line, q.escaped;
    if commentAt >= 0 {
      content, escaped := line[..commentAt], false;
      for k := 0 to |content|
        invariant escaped == EscapedAfter(content[..k])
      {
        assert content[..k + 1][..k] == content[..k];
        escaped := !escaped && content[k] == '\\';
      }
      assert content[..|content|] == content;
    }
    var trimmed := TrimBlanks(content);
    if escaped && |trimmed| > 0 && trimmed[|trimmed| - 1] == '\\' { return Continued(trimmed[..|trimmed| - 1]); }
    if q.inSingle || q.inDouble { return Unterminated; }
    result := Complete(content);
  }

  /** openVPNContinuation of the import policy. */
  method ScanContinuation(line: string) returns (result: Continuation)
    ensures result == Continues(line)
  {
    var inSingle, inDouble, escaped := false, false, false;
    var i, commentAt := 0, -1;
    while i < |line|
      invariant i <= |line| && Quoting(inSingle, inDouble, escaped) == QuotingAt(line, i)
      invariant ContentEnd(line, 0) == ContentEnd(line, i) && commentAt == -1
    {
      var c := line[i];
      if escaped {
        escaped := false;
      } else if c == '\\' && !inSingle {
        escaped := true;
      } else if c == '\'' && !inDouble {
        inSingle := !inSingle;
      } else if c == '"' && !inSingle {
        inDouble := !inDouble;
      } else if !inSingle && !inDouble && (c == '#' || c == ';') && (i == 0 || Blank(line[i - 1])) {
        commentAt := i;
        break;
      }
      i := i + 1;
    }
    result := Conclude(line, commentAt, Quoting(inSingle, inDouble, escaped));
  }

  predicate Refused(c: char) {
    c < '\U{20}' && c != '\t'
  }

  /** openVPNContinuation of the tunnel: it refuses exactly the control characters of the content
      that it scans, and otherwise decides as the import policy does. */
  method ScanTunnelContinuation(line: string) returns (result: Continuation)
    ensures (exists k :: 0 <= k < |Content(line)| && Refused(line[k])) ==> result == ControlCharacter
    ensures (forall k :: 0 <= k < |Content(line)| ==> !Refused(line[k])) ==> result == Continues(line)
  {
    var inSingle, inDouble, escaped := false, false, false;
    var i, commentAt := 0, -1;
    while i < |line|
      invariant i <= |line| && Quoting(inSingle, inDouble, escaped) == QuotingAt(line, i)
      invariant ContentEnd(line, 0) == ContentEnd(line, i) && commentAt == -1
      invariant forall k :: 0 <= k < i ==> !Refused(line[k])
    {
      var c := line[i];
      if Refused(c) {
        assert Content(line)[i] == c;
        return ControlCharacter;
      }
      if escaped {
        escaped := false;
      } else if c == '\\' && !inSingle {
        escaped := true;
      } else if c == '\'' && !inDouble {
        inSingle := !inSingle;
      } else if c == '"' && !inSingle {
        inDouble := !inDouble;
      } else if !inSingle && !inDouble && (c == '#' || c == ';') && (i == 0 || Blank(line[i - 1])) {
        commentAt := i;
        break;
      }
      i := i + 1;
    }
    result := Conclude(line, commentAt, Quoting(inSingle, inDouble, escaped));
  }

  // ----- the tokenizer -----------------------------------------------------------------------

  datatype Tokenized = Tokens(tokens: seq<string>) | Dangling | Unclosed

  datatype Builder = Builder(tokens: seq<string>, token: string, started: bool)

  function Flush(b: Builder): Builder {
    if b.started then Builder(b.tokens + [b.token], "", false) else b
  }

  function Append(b: Builder, q: Quoting, c: char): Builder {
    if q.escaped then b.(token := b.token + [c], started := true)
    else if c == '\\' && !q.inSingle then b.(started := true)
    else if c == '\'' && !q.inDouble then b.(started := true)
    else if c == '"' && !q.inSingle then b.(started := true)
    else if !q.inSingle && !q.inDouble && Blank(c) then Flush(b)
    else b.(token := b.token + [c], started := true)
  }

  function BuilderAt(line: string, i: nat): Builder
    requires i <= |line|
  {
    if i == 0 then Builder([], "", false) else Append(BuilderAt(line, i - 1), QuotingAt(line, i - 1), line[i - 1])
  }

  function Tokenize(line: string): Tokenized {
    var end := ContentEnd(line, 0);
    var q := QuotingAt(line, end);
    if q.escaped then Dangling
    else if q.inSingle || q.inDouble then Unclosed
    else Tokens(Flush(BuilderAt(line, end)).tokens)
  }

  /** tokenizeOpenVPNLine, the same in both packages. */
  method TokenizeLine(line: string) returns (result: Tokenized)
    ensures result == Tokenize(line)
  {
    var tokens: seq<string>, token: string, started := [], "", false;
    var inSingle, inDouble, escaped := false, false, false;
    var i := 0;
    while i < |line|
      invariant i <= |line| && Quoting(inSingle, inDouble, escaped) == QuotingAt(line, i)
      invariant Builder(tokens, token, started) == BuilderAt(line, i)
      invariant ContentEnd(line, 0) == ContentEnd(line, i)
    {
      var c := line[i];
      if escaped {
        token, started, escaped := token + [c], true, false;
      } else if c == '\\' && !inSingle {
        escaped, started := true, true;
      } else if c == '\'' && !inDouble {
        inSingle, started := !inSingle, true;
      } else if c == '"' && !inSingle {
        inDouble, started := !inDouble, true;
      } else if !inSingle && !inDouble && (c == '#' || c == ';') && (i == 0 || Blank(line[i - 1])) {
        break;
      } else if !inSingle && !inDouble && Blank(c) {
        if started { tokens, token, started := tokens + [token], "", false; }
      } else {
        token, started := token + [c], true;
      }
      i := i + 1;
    }
    if escaped { return Dangling; }
    if inSingle || inDouble { return Unclosed; }
    if started { tokens := tokens + [token]; }
    result := Tokens(tokens);
  }

  // ----- agreement ---------------------------------------------------------------------------

  lemma {:induction false} SamePrefix(line: string, n: nat, i: nat)
    requires i <= n <= |line|
    ensures QuotingAt(line[..n], i) == QuotingAt(line, i)
    ensures BuilderAt(line[..n], i) == BuilderAt(line, i)
  {
    if i > 0 { SamePrefix(line, n, i - 1); }
  }

  /** Up to the comment the content ends nowhere earlier. */
  lemma {:induction false} ContentWhole(line: string, i: nat)
    requires i <= ContentEnd(line, 0) && ContentEnd(line, i) == ContentEnd(line, 0)
    ensures ContentEnd(Content(line), i) == |Content(line)|
    decreases |line| - i
  {
    var n := ContentEnd(line, 0);
    if i < n {
      SamePrefix(line, n, i);
      ContentWhole(line, i + 1);
    }
  }

  /** The two scanners agree on every line: it continues exactly when its tokens would end in a
      dangling escape, it is unterminated exactly when its tokens would be, and otherwise the
      content returned has the tokens of the whole line. A comment never continues a line. */
  lemma ScannersAgree(line: string)
    ensures Continues(line).Continued? <==> Tokenize(line).Dangling?
    ensures Continues(line).Unterminated? <==> Tokenize(line).Unclosed?
    ensures Continues(line).Complete? ==> Tokenize(Continues(line).content) == Tokenize(line)
    ensures Content(line) != line ==> Continues(line) == Complete(Content(line)) && Tokenize(line).Tokens?
    ensures Continues(line).Continued? ==> line == Continues(line).fragment + "\\"
  {
    EndIsComment(line, 0);
    PendingEscape(line);
    var n := ContentEnd(line, 0);
    SamePrefix(line, n, n);
    ContentWhole(line, 0);
  }
}
