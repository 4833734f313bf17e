/** A written patchset as the text of a file, and the file's lines when it is read again. */
module PatchFile {
  import opened Options
  import opened PatchRoundTrip
  import opened PatchText

  function FileText(writes: seq<string>): string {
    if writes == [] then "" else writes[0] + FileText(writes[1..])
  }

  /** Length of the first line, its newline included. */
  function LineEnd(text: string): (n: nat)
    requires text != ""
    ensures 0 < n <= |text| && NewlineFree(text[..n - 1])
  {
    if text[0] == '\n' || |text| == 1 then 1 else
      var n := 1 + LineEnd(text[1..]);
      assert forall i :: 1 <= i < n - 1 ==> text[i] == text[1..][..n - 2][i - 1];
      n
  }

  /** What iterating over a file yields. */
  function FileLines(text: string): seq<string> {
    if text == "" then [] else [text[..LineEnd(text)]] + FileLines(text[LineEnd(text)..])
  }

  predicate Terminated(line: string) {
    line != "" && line[|line| - 1] == '\n' && NewlineFree(line[..|line| - 1])
  }

  lemma {:induction false} LineEndIs(line: string, rest: string)
    requires Terminated(line)
    ensures LineEnd(line + rest) == |line|
    decreases |line|
  {
    if |line| > 1 {
      assert line[0] == line[..|line| - 1][0];
      assert (line + rest)[1..] == line[1..] + rest;
      assert line[1..][..|line| - 2] == line[..|line| - 1][1..];
      LineEndIs(line[1..], rest);
    }
  }

  lemma {:induction false} LinesOfText(writes: seq<string>)
    requires forall i :: 0 <= i < |writes| ==> Terminated(writes[i])
    ensures FileLines(FileText(writes)) == writes
    decreases |writes|
  {
    if writes != [] {
      var line, rest := writes[0], FileText(writes[1..]);
      LinesOfText(writes[1..]);
      LineEndIs(line, rest);
      assert (line + rest)[..|line|] == line && (line + rest)[|line|..] == rest;
    }
  }

  // ---------------------------------------------------------------- every write is one line

  ghost predicate AllTerminated(writes: seq<string>) {
    forall i :: 0 <= i < |writes| ==> Terminated(writes[i])
  }

  lemma TerminatedText(s: string)
    requires NewlineFree(s)
    ensures Terminated(s + "\n")
  {
    assert (s + "\n")[..|s|] == s;
  }

  lemma NewlineFreeAppend(a: string, b: string)
    requires NewlineFree(a) && NewlineFree(b)
    ensures NewlineFree(a + b)
  {
  }

  lemma DecimalNewlineFree(n: nat)
    ensures NewlineFree(Decimal(n))
  {
    DecimalReadsBack(n);
  }

  lemma HeaderTerminated(c: Chunk)
    ensures Terminated(WriteHeader(c))
  {
    var a, b, x, d := Decimal(c.srcPos), Decimal(SrcLen(c.lines)), Decimal(c.dstPos), Decimal(DstLen(c.lines));
    DecimalNewlineFree(c.srcPos);
    DecimalNewlineFree(SrcLen(c.lines));
    DecimalNewlineFree(c.dstPos);
    DecimalNewlineFree(DstLen(c.lines));
    var tail := x + ("," + (d + " @@"));
    NewlineFreeAppend(d, " @@");
    NewlineFreeAppend(",", d + " @@");
    NewlineFreeAppend(x, "," + (d + " @@"));
    NewlineFreeAppend(" +", tail);
    NewlineFreeAppend(b, " +" + tail);
    NewlineFreeAppend(",", b + (" +" + tail));
    NewlineFreeAppend(a, "," + (b + (" +" + tail)));
    var header := "@@ -" + (a + ("," + (b + (" +" + tail))));
    NewlineFreeAppend("@@ -", a + ("," + (b + (" +" + tail))));
    TerminatedText(header);
    HeaderEnding(x, d);
    assert WriteHeader(c) == header + "\n";
  }

  lemma HeaderEnding(x: string, d: string)
    ensures x + ("," + (d + " @@\n")) == x + ("," + (d + " @@")) + "\n"
  {
  }

  lemma {:induction false} LinesTerminated(lines: seq<Line>)
    requires forall i :: 0 <= i < |lines| ==> NewlineFree(lines[i].text)
    ensures AllTerminated(WriteLines(lines))
    decreases |lines|
  {
    if lines != [] {
      var l := lines[|lines| - 1];
      LinesTerminated(lines[..|lines| - 1]);
      NewlineFreeAppend(SignOf(l.kind), l.text);
      TerminatedText(SignOf(l.kind) + l.text);
    }
  }

  lemma {:induction false} ChunksTerminated(chunks: seq<Chunk>)
    requires forall j :: 0 <= j < |chunks| ==> PlainChunk(chunks[j])
    ensures AllTerminated(WriteChunks(chunks))
    decreases |chunks|
  {
    if chunks != [] {
      var n := |chunks| - 1;
      ChunksTerminated(chunks[..n]);
      HeaderTerminated(chunks[n]);
      LinesTerminated(chunks[n].lines);
    }
  }

  lemma PatchTerminated(p: PatchV)
    requires PlainPatch(p)
    ensures AllTerminated(WritePatch(p))
  {
    NewlineFreeAppend("--- ", p.src);
    TerminatedText("--- " + p.src);
    NewlineFreeAppend("+++ ", p.dst);
    TerminatedText("+++ " + p.dst);
    ChunksTerminated(p.chunks);
  }

  lemma {:induction false} AllWritesTerminated(ps: seq<PatchV>)
    requires Plain(ps)
    ensures AllTerminated(WriteAll(ps))
    decreases |ps|
  {
    if ps != [] {
      var n := |ps| - 1;
      AllWritesTerminated(ps[..n]);
      PatchTerminated(ps[n]);
    }
  }

  /** Writing a newline-free patchset to a file and reading the file gives the patchset back exactly when
      no removed line begins with `-- ` and no added line with `++ `. */
  lemma FileRoundTrip(ps: seq<PatchV>)
    requires Plain(ps)
    ensures Parse(FileLines(FileText(WriteAll(ps)))) == Some(ps) <==> Unambiguous(ps)
  {
    AllWritesTerminated(ps);
    LinesOfText(WriteAll(ps));
    ParseOfWrite(ps);
  }
}
