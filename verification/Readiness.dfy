/** The readiness scanner of OpenVPN's output (internal/tunnel/openvpn.go): it reads the output in
    chunks of any size and signals once a line equals the marker. */
module Readiness {
  const MARKER := "Initialization Sequence Completed"
  const LINE_CAP := 4096

  // ----- the lines of a stream -----------------------------------------------------------------

  /** The lines that a newline has ended. */
  function Ended(stream: string): seq<string> {
    if stream == "" then []
    else
      var before := stream[..|stream| - 1];
      if stream[|stream| - 1] == '\n' then Ended(before) + [Open(before)] else Ended(before)
  }

  /** What follows the last newline. */
  function Open(stream: string): string {
    if stream == "" || stream[|stream| - 1] == '\n' then "" else Open(stream[..|stream| - 1]) + [stream[|stream| - 1]]
  }

  function Join(lines: seq<string>, last: string): string {
    if lines == [] then last else lines[0] + "\n" + Join(lines[1..], last)
  }

  lemma {:induction false} JoinSnoc(lines: seq<string>, line: string, last: string)
    ensures Join(lines + [line], last) == Join(lines, line + "\n" + last)
  {
    if lines == [] {
      assert Join([line], last) == line + "\n" + Join([], last);
    } else {
      JoinSnoc(lines[1..], line, last);
      assert (lines + [line])[1..] == lines[1..] + [line];
    }
  }

  lemma {:induction false} JoinAppend(lines: seq<string>, last: string, more: string)
    ensures Join(lines, last + more) == Join(lines, last) + more
  {
    if lines != [] { JoinAppend(lines[1..], last, more); }
  }

  /** The ended lines and the open one are the stream, cut at its newlines and nowhere else. */
  lemma {:induction false} LinesAreStream(stream: string)
    ensures Join(Ended(stream), Open(stream)) == stream
    ensures '\n' !in Open(stream) && forall k :: 0 <= k < |Ended(stream)| ==> '\n' !in Ended(stream)[k]
  {
    if stream != "" {
      var before, c := stream[..|stream| - 1], stream[|stream| - 1];
      LinesAreStream(before);
      assert stream == before + [c];
      if c == '\n' {
        JoinSnoc(Ended(before), Open(before), "");
        JoinAppend(Ended(before), Open(before), "\n");
        assert Open(before) + "\n" + "" == Open(before) + "\n";
      } else {
        JoinAppend(Ended(before), Open(before), [c]);
      }
    }
  }

  /** A line is the marker, less one trailing carriage return. */
  predicate IsMarker(line: string) {
    line == MARKER || line == MARKER + "\r"
  }

  predicate Announced(lines: seq<string>) {
    exists k :: 0 <= k < |lines| && IsMarker(lines[k])
  }

  lemma OneMore(stream: string, c: char)
    requires c != '\n'
    ensures Ended(stream + [c]) == Ended(stream) && Open(stream + [c]) == Open(stream) + [c]
  {
    assert (stream + [c])[..|stream|] == stream;
  }

  lemma {:induction false} Appended(stream: string, more: string)
    requires '\n' !in more
    ensures Ended(stream + more) == Ended(stream) && Open(stream + more) == Open(stream) + more
  {
    if more == "" {
      assert stream + more == stream;
    } else {
      var init, c := more[..|more| - 1], more[|more| - 1];
      Appended(stream, init);
      OneMore(stream + init, c);
      assert stream + more == (stream + init) + [c] && Open(stream) + more == (Open(stream) + init) + [c];
    }
  }

  lemma NewLine(stream: string)
    ensures Ended(stream + "\n") == Ended(stream) + [Open(stream)] && Open(stream + "\n") == ""
  {
    assert (stream + "\n")[..|stream|] == stream;
  }

  function TrimReturn(line: string): string {
    if line != "" && line[|line| - 1] == '\r' then line[..|line| - 1] else line
  }

  lemma TrimmedMarker(line: string)
    ensures TrimReturn(line) == MARKER <==> IsMarker(line)
  {
    if TrimReturn(line) == MARKER && line != MARKER { assert line == line[..|line| - 1] + "\r"; }
  }

  function Newline(chunk: string): (n: nat)
    ensures n <= |chunk| && '\n' !in chunk[..n] && (n < |chunk| ==> chunk[n] == '\n')
  {
    if chunk == "" || chunk[0] == '\n' then 0
    else
      var n := Newline(chunk[1..]);
      assert chunk[..n + 1] == [chunk[0]] + chunk[1..][..n];
      n + 1
  }

  // ----- the scanner ---------------------------------------------------------------------------

  class Scanner {
    var line: string      // readinessLine
    var discard: bool     // discardReadinessLine
    var ready: bool
    ghost var stream: string

    constructor ()
      ensures Valid() && stream == "" && !ready
    {
      line, discard, ready, stream := "", false, false, "";
    }

    /** The buffer is the open line, or that line is already too long for the marker. */
    ghost predicate Valid()
      reads this
    {
      && |line| <= LINE_CAP
      && (if discard then |Open(stream)| > LINE_CAP else line == Open(stream))
      && (ready <==> Announced(Ended(stream)))
    }

    /** The rest of a chunk that ends no line. */
    method Hold(part: string)
      requires Valid() && '\n' !in part
      modifies this
      ensures Valid() && stream == old(stream) + part
    {
      Appended(stream, part);
      if !discard {
        line := line + part;
        if |line| > LINE_CAP { line, discard := "", true; }
      }
      stream := stream + part;
    }

    /** A part of a chunk up to a newline. */
    method End(part: string)
      requires Valid() && '\n' !in part
      modifies this
      ensures Valid() && stream == old(stream) + part + "\n"
    {
      Appended(stream, part);
      NewLine(stream + part);
      AnnouncedSnoc(Ended(stream), Open(stream) + part);
      TrimmedMarker(line + part);
      if discard {
        LongLine(Open(stream) + part);
        discard := false;
      } else if TrimReturn(line + part) == MARKER {
        ready := true;
      }
      line := "";
      stream := stream + part + "\n";
    }

    /** inspectReadiness of a chunk, one line of it after the other. */
    method Feed(chunk: string)
      requires Valid()
      modifies this
      ensures Valid() && stream == old(stream) + chunk
    {
      var rest := chunk;
      while rest != ""
        invariant Valid() && stream + rest == old(stream) + chunk
        decreases |rest|
      {
        var n := Newline(rest);
        if n == |rest| {
          assert rest[..n] == rest;
          Hold(rest);
          rest := "";
        } else {
          assert rest == rest[..n] + "\n" + rest[n + 1..];
          End(rest[..n]);
          rest := rest[n + 1..];
        }
      }
    }

    /** inspectReadiness at the end of the stream: its last line may lack a newline. */
    method Finish()
      requires Valid()
      modifies this`ready
      ensures ready <==> Announced(Ended(stream) + [Open(stream)])
    {
      TrimmedMarker(line);
      AnnouncedSnoc(Ended(stream), Open(stream));
      if discard { LongLine(Open(stream)); }
      if !discard && TrimReturn(line) == MARKER { ready := true; }
    }
  }

  lemma AnnouncedSnoc(lines: seq<string>, line: string)
    ensures Announced(lines + [line]) <==> Announced(lines) || IsMarker(line)
  {
    var all := lines + [line];
    assert all[|lines|] == line && forall k :: 0 <= k < |lines| ==> all[k] == lines[k];
  }

  lemma LongLine(line: string)
    requires |line| > LINE_CAP
    ensures !IsMarker(line)
  {
    assert |MARKER| == 33;
  }

  function Concat(chunks: seq<string>): string {
    if chunks == [] then "" else Concat(chunks[..|chunks| - 1]) + chunks[|chunks| - 1]
  }

  /** However the output is cut into chunks, readiness has been signalled by its end exactly when one
      of its lines, ended or last, is the marker; and the buffer stays within its cap. */
  method Drain(chunks: seq<string>) returns (ready: bool)
    ensures ready <==> Announced(Ended(Concat(chunks)) + [Open(Concat(chunks))])
  {
    var scanner := new Scanner();
    for k := 0 to |chunks|
      invariant scanner.Valid() && scanner.stream == Concat(chunks[..k]) && fresh(scanner)
      invariant |scanner.line| <= LINE_CAP
    {
      assert chunks[..k + 1][..k] == chunks[..k];
      scanner.Feed(chunks[k]);
    }
    assert chunks[..|chunks|] == chunks;
    scanner.Finish();
    ready := scanner.ready;
  }
}
