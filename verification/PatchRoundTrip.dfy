/** Reading back a written patchset: exactly when it gives the same patchset. */
module PatchRoundTrip {
  import opened Options
  import opened PatchLines
  import opened PatchText

  // ---------------------------------------------------------------- how written lines are classed

  predicate LooksLikeSrcFile(l: Line) {
    l.kind == SRC && "-- " <= l.text
  }

  predicate LooksLikeDstFile(l: Line) {
    l.kind == DST && "++ " <= l.text
  }

  lemma SrcFileClassified(name: string)
    requires NewlineFree(name)
    ensures Classify("--- " + name + "\n") == SrcFile(name)
  {
    FileIff("--- " + name + "\n", name);
  }

  lemma DstFileClassified(name: string)
    requires NewlineFree(name)
    ensures Classify("+++ " + name + "\n") == DstFile(name)
  {
    FileIff("+++ " + name + "\n", name);
  }

  lemma SrcLineClassified(l: Line)
    requires NewlineFree(l.text) && l.kind == SRC
    ensures LooksLikeSrcFile(l) ==> Classify(WriteLine(l)).SrcFile?
    ensures !LooksLikeSrcFile(l) ==> Classify(WriteLine(l)) == Body(l)
  {
    if "-- " <= l.text {
      var name := l.text[3..];
      assert WriteLine(l) == "--- " + name + "\n";
      SrcFileClassified(name);
    } else {
      SrcLineIff(WriteLine(l), l.text);
    }
  }

  lemma DstLineClassified(l: Line)
    requires NewlineFree(l.text) && l.kind == DST
    ensures LooksLikeDstFile(l) ==> Classify(WriteLine(l)).DstFile?
    ensures !LooksLikeDstFile(l) ==> Classify(WriteLine(l)) == Body(l)
  {
    if "++ " <= l.text {
      var name := l.text[3..];
      assert WriteLine(l) == "+++ " + name + "\n";
      DstFileClassified(name);
    } else {
      DstLineIff(WriteLine(l), l.text);
    }
  }

  lemma LineClassified(l: Line)
    requires NewlineFree(l.text)
    ensures LooksLikeSrcFile(l) ==> Classify(WriteLine(l)).SrcFile?
    ensures LooksLikeDstFile(l) ==> Classify(WriteLine(l)).DstFile?
    ensures !LooksLikeSrcFile(l) && !LooksLikeDstFile(l) ==> Classify(WriteLine(l)) == Body(l)
  {
    match l.kind
    case SRC => SrcLineClassified(l);
    case DST => DstLineClassified(l);
    case BOTH => BothLineIff(WriteLine(l), l.text);
  }

  /** The number without leading zeros. */
  predicate IsDecimal(s: string, n: nat) {
    Digits(s, n) && (s[0] == '0' ==> |s| == 1)
  }

  /** A written header is the two pairs of numbers between their signs, and nothing else. */
  lemma HeaderWritten(c: Chunk)
    ensures exists x, y, z, w ::
      && HeaderOf(WriteHeader(c), x, y, z, w, "\n")
      && IsDecimal(x, c.srcPos) && IsDecimal(y, SrcLen(c.lines))
      && IsDecimal(z, c.dstPos) && IsDecimal(w, DstLen(c.lines))
  {
    DecimalReadsBack(c.srcPos);
    DecimalReadsBack(SrcLen(c.lines));
    DecimalReadsBack(c.dstPos);
    DecimalReadsBack(DstLen(c.lines));
    assert " @@" + "\n" == " @@\n";
    assert HeaderOf(WriteHeader(c), Decimal(c.srcPos), Decimal(SrcLen(c.lines)), Decimal(c.dstPos),
                    Decimal(DstLen(c.lines)), "\n");
  }

  /** The header of a written chunk is read back with all four of its numbers: both positions, and the
      counts of source and destination lines. */
  lemma HeaderReadBack(c: Chunk)
    ensures ChunkHeader(WriteHeader(c)) == Some((c.srcPos, SrcLen(c.lines), c.dstPos, DstLen(c.lines)))
  {
    HeaderWritten(c);
    HeaderIff(WriteHeader(c), c.srcPos, SrcLen(c.lines), c.dstPos, DstLen(c.lines));
  }

  lemma HeaderClassified(c: Chunk)
    ensures Classify(WriteHeader(c)) == ChunkStart(c.srcPos, c.dstPos)
  {
    HeaderReadBack(c);
    HeaderStarts(WriteHeader(c));
  }

  // ---------------------------------------------------------------- reading back

  predicate GoodLine(l: Line) {
    !LooksLikeSrcFile(l) && !LooksLikeDstFile(l)
  }

  predicate GoodChunk(c: Chunk) {
    forall i :: 0 <= i < |c.lines| ==> GoodLine(c.lines[i])
  }

  predicate GoodPatch(p: PatchV) {
    forall j :: 0 <= j < |p.chunks| ==> GoodChunk(p.chunks[j])
  }

  /** No removed line begins with `-- ` and no added line with `++ `. */
  predicate Unambiguous(ps: seq<PatchV>) {
    forall k :: 0 <= k < |ps| ==> GoodPatch(ps[k])
  }

  predicate PlainChunk(c: Chunk) {
    forall i :: 0 <= i < |c.lines| ==> NewlineFree(c.lines[i].text)
  }

  predicate PlainPatch(p: PatchV) {
    NewlineFree(p.src) && NewlineFree(p.dst) && forall j :: 0 <= j < |p.chunks| ==> PlainChunk(p.chunks[j])
  }

  /** No text in the patchset contains a newline. */
  predicate Plain(ps: seq<PatchV>) {
    forall k :: 0 <= k < |ps| ==> PlainPatch(ps[k])
  }

  lemma {:induction false} ReadAppend(r: Reader, a: seq<string>, b: seq<string>)
    requires ValidReader(r)
    ensures Read(r, a + b) == match Read(r, a) { case None => None case Some(r') => Read(r', b) }
    decreases |b|
  {
    if b == [] {
      assert a + b == a;
    } else {
      var n := |b| - 1;
      ReadAppend(r, a, b[..n]);
      assert (a + b)[..|a + b| - 1] == a + b[..n] && (a + b)[|a + b| - 1] == b[n];
    }
  }

  lemma ReadThen(r: Reader, a: seq<string>, r1: Reader, b: seq<string>, r2: Reader)
    requires ValidReader(r) && Read(r, a) == Some(r1) && Read(r1, b) == Some(r2)
    ensures Read(r, a + b) == Some(r2)
  {
    ReadAppend(r, a, b);
  }

  lemma ReadThenOne(r: Reader, a: seq<string>, r1: Reader, line: string, r2: Reader)
    requires ValidReader(r) && ValidReader(r1) && Read(r, a) == Some(r1) && ReadLine(r1, line) == Some(r2)
    ensures Read(r, a + [line]) == Some(r2)
  {
    assert (a + [line])[..|a|] == a;
  }

  lemma ReadOne(r: Reader, line: string)
    requires ValidReader(r)
    ensures Read(r, [line]) == ReadLine(r, line)
  {
    assert [line][..0] == [];
  }

  /** A reader in the middle of the last chunk of its last patch. */
  ghost function Midway(ps: seq<PatchV>, p: PatchV, c: Chunk, lines: seq<Line>): Reader {
    Reader(ps + [p.(chunks := p.chunks + [c.(lines := lines)])], Some(|ps|))
  }

  lemma OneMoreLine(ps: seq<PatchV>, p: PatchV, c: Chunk, lines: seq<Line>, l: Line)
    requires GoodLine(l) && NewlineFree(l.text)
    ensures ReadLine(Midway(ps, p, c, lines), WriteLine(l)) == Some(Midway(ps, p, c, lines + [l]))
  {
    LineClassified(l);
    var r := Midway(ps, p, c, lines);
    var q := r.patches[|ps|];
    assert q.chunks[|p.chunks|] == c.(lines := lines);
    assert WithLine(q, l).chunks == p.chunks + [c.(lines := lines + [l])];
    assert r.patches[|ps| := WithLine(q, l)] == ps + [p.(chunks := p.chunks + [c.(lines := lines + [l])])];
  }

  lemma {:induction false} LinesReadBack(ps: seq<PatchV>, p: PatchV, c: Chunk, lines: seq<Line>)
    requires forall i :: 0 <= i < |lines| ==> GoodLine(lines[i]) && NewlineFree(lines[i].text)
    ensures Read(Midway(ps, p, c, []), WriteLines(lines)) == Some(Midway(ps, p, c, lines))
    decreases |lines|
  {
    if lines != [] {
      var n := |lines| - 1;
      var front, l := lines[..n], lines[n];
      assert lines == front + [l];
      LinesReadBack(ps, p, c, front);
      OneMoreLine(ps, p, c, front, l);
      ReadThenOne(Midway(ps, p, c, []), WriteLines(front), Midway(ps, p, c, front), WriteLine(l),
                  Midway(ps, p, c, lines));
    }
  }

  /** A reader at the end of a chunk, or before the first one. */
  ghost predicate AtPatch(r: Reader, ps: seq<PatchV>, p: PatchV) {
    ValidReader(r) && r.patches == ps + [p] && (p.chunks != [] ==> r.current == Some(|ps|))
  }

  lemma StartStarts(r: Reader, ps: seq<PatchV>, p: PatchV, c: Chunk, text: string)
    requires AtPatch(r, ps, p) && Classify(text) == ChunkStart(c.srcPos, c.dstPos)
    ensures Read(r, [text]) == Some(Midway(ps, p, c, []))
  {
    ReadOne(r, text);
    assert r.patches[|ps|] == p;
    assert ps + [p.(chunks := p.chunks + [c.(lines := [])])]
        == r.patches[|ps| := p.(chunks := p.chunks + [Chunk(c.srcPos, c.dstPos, [])])];
  }

  lemma WrittenHeaderStarts(r: Reader, ps: seq<PatchV>, p: PatchV, c: Chunk)
    requires AtPatch(r, ps, p)
    ensures Read(r, [WriteHeader(c)]) == Some(Midway(ps, p, c, []))
  {
    HeaderClassified(c);
    StartStarts(r, ps, p, c, WriteHeader(c));
  }

  lemma ChunkReadBack(r: Reader, ps: seq<PatchV>, p: PatchV, c: Chunk)
    requires AtPatch(r, ps, p) && GoodChunk(c) && PlainChunk(c)
    ensures Read(r, WriteChunk(c)) == Some(Midway(ps, p, c, c.lines))
  {
    WrittenHeaderStarts(r, ps, p, c);
    LinesReadBack(ps, p, c, c.lines);
    ReadThen(r, [WriteHeader(c)], Midway(ps, p, c, []), WriteLines(c.lines), Midway(ps, p, c, c.lines));
  }

  lemma {:induction false} ChunksReadBack(r: Reader, ps: seq<PatchV>, p: PatchV, chunks: seq<Chunk>)
    requires AtPatch(r, ps, p) && p.chunks == []
    requires forall j :: 0 <= j < |chunks| ==> GoodChunk(chunks[j]) && PlainChunk(chunks[j])
    ensures Read(r, WriteChunks(chunks)).Some?
    ensures AtPatch(Read(r, WriteChunks(chunks)).value, ps, p.(chunks := chunks))
    decreases |chunks|
  {
    if chunks != [] {
      var n := |chunks| - 1;
      var front, c := chunks[..n], chunks[n];
      assert chunks == front + [c];
      ChunksReadBack(r, ps, p, front);
      var r' := Read(r, WriteChunks(front)).value;
      ChunkReadBack(r', ps, p.(chunks := front), c);
      ReadThen(r, WriteChunks(front), r', WriteChunk(c),
               Midway(ps, p.(chunks := front), c, c.lines));
      assert c.(lines := c.lines) == c;
    }
  }

  lemma FilesReadBack(r: Reader, src: string, dst: string)
    requires ValidReader(r) && NewlineFree(src) && NewlineFree(dst)
    ensures Read(r, ["--- " + src + "\n", "+++ " + dst + "\n"]).Some?
    ensures AtPatch(Read(r, ["--- " + src + "\n", "+++ " + dst + "\n"]).value, r.patches, PatchV(src, dst, []))
  {
    var a, b := "--- " + src + "\n", "+++ " + dst + "\n";
    SrcFileClassified(src);
    DstFileClassified(dst);
    ReadOne(r, a);
    var r1 := ReadLine(r, a).value;
    ReadOne(r1, b);
    ReadAppend(r, [a], [b]);
    assert [a] + [b] == [a, b];
    assert r1.patches[|r.patches|] == PatchV(src, "", []);
    assert r1.patches[|r.patches| := PatchV(src, dst, [])] == r.patches + [PatchV(src, dst, [])];
  }

  lemma PatchReadBack(r: Reader, p: PatchV)
    requires ValidReader(r) && GoodPatch(p) && PlainPatch(p)
    ensures Read(r, WritePatch(p)).Some?
    ensures Read(r, WritePatch(p)).value.patches == r.patches + [p]
  {
    var files := ["--- " + p.src + "\n", "+++ " + p.dst + "\n"];
    FilesReadBack(r, p.src, p.dst);
    var r' := Read(r, files).value;
    ChunksReadBack(r', r.patches, PatchV(p.src, p.dst, []), p.chunks);
    ReadAppend(r, files, WriteChunks(p.chunks));
    assert PatchV(p.src, p.dst, []).(chunks := p.chunks) == p;
  }

  /** Written text that reads as one more patch, after text that reads as the patches before it. */
  lemma OneMorePatch(front: seq<PatchV>, before: seq<string>, p: PatchV, text: seq<string>)
    requires Read(NOTHING_READ, before).Some? && Read(NOTHING_READ, before).value.patches == front
    requires forall r :: ValidReader(r) && r.patches == front ==>
      Read(r, text).Some? && Read(r, text).value.patches == front + [p]
    ensures Read(NOTHING_READ, before + text).Some?
    ensures Read(NOTHING_READ, before + text).value.patches == front + [p]
  {
    ReadAppend(NOTHING_READ, before, text);
  }

  lemma {:induction false} AllReadBack(ps: seq<PatchV>)
    requires Unambiguous(ps) && Plain(ps)
    ensures Read(NOTHING_READ, WriteAll(ps)).Some? && Read(NOTHING_READ, WriteAll(ps)).value.patches == ps
    decreases |ps|
  {
    if ps != [] {
      var n := |ps| - 1;
      var front, p := ps[..n], ps[n];
      assert ps == front + [p] && GoodPatch(p) && PlainPatch(p);
      AllReadBack(front);
      forall r | ValidReader(r) && r.patches == front
        ensures Read(r, WritePatch(p)).Some? && Read(r, WritePatch(p)).value.patches == front + [p]
      {
        PatchReadBack(r, p);
      }
      OneMorePatch(front, WriteAll(front), p, WritePatch(p));
    }
  }

  // ---------------------------------------------------------------- the other half: counting

  /** How many lines satisfy a test. */
  ghost function Count(f: string -> bool, text: seq<string>): nat {
    if text == [] then 0 else Count(f, text[..|text| - 1]) + if f(text[|text| - 1]) then 1 else 0
  }

  predicate IsBody(line: string) {
    Classify(line).Body?
  }

  /** What the counting argument needs to know: among written lines, f picks the chunk lines g accepts. */
  ghost predicate Picks(f: string -> bool, g: Line -> bool) {
    && (forall l: Line :: NewlineFree(l.text) ==> (f(WriteLine(l)) <==> g(l)))
    && (forall c: Chunk :: !f(WriteHeader(c)))
    && (forall name: string :: NewlineFree(name) ==> !f("--- " + name + "\n"))
    && (forall name: string :: NewlineFree(name) ==> !f("+++ " + name + "\n"))
  }

  lemma IsBodyPicksGoodLines()
    ensures Picks(IsBody, GoodLine)
  {
    forall l: Line | NewlineFree(l.text) ensures IsBody(WriteLine(l)) <==> GoodLine(l) {
      LineClassified(l);
    }
    forall c: Chunk ensures !IsBody(WriteHeader(c)) {
      HeaderClassified(c);
    }
    forall name: string | NewlineFree(name) ensures !IsBody("--- " + name + "\n") {
      SrcFileClassified(name);
    }
    forall name: string | NewlineFree(name) ensures !IsBody("+++ " + name + "\n") {
      DstFileClassified(name);
    }
  }

  ghost function ChunkLines(chunks: seq<Chunk>): nat {
    if chunks == [] then 0 else ChunkLines(chunks[..|chunks| - 1]) + |chunks[|chunks| - 1].lines|
  }

  ghost function AllLines(ps: seq<PatchV>): nat {
    if ps == [] then 0 else AllLines(ps[..|ps| - 1]) + ChunkLines(ps[|ps| - 1].chunks)
  }

  lemma {:induction false} AllLinesUpdate(ps: seq<PatchV>, k: nat, p: PatchV)
    requires k < |ps|
    ensures AllLines(ps[k := p]) == AllLines(ps) - ChunkLines(ps[k].chunks) + ChunkLines(p.chunks)
    decreases |ps|
  {
    var n := |ps| - 1;
    if k < n {
      AllLinesUpdate(ps[..n], k, p);
      assert ps[k := p][..n] == ps[..n][k := p];
    } else {
      assert ps[k := p][..n] == ps[..n];
    }
  }

  lemma ReadLineCounts(r: Reader, text: string)
    requires ValidReader(r) && ReadLine(r, text).Some?
    ensures AllLines(ReadLine(r, text).value.patches) == AllLines(r.patches) + if Classify(text).Body? then 1 else 0
  {
    var ps, n := r.patches, |r.patches|;
    match Classify(text)
    case SrcFile(name) =>
      assert (ps + [PatchV(name, "", [])])[..n] == ps;
    case DstFile(name) =>
      AllLinesUpdate(ps, n - 1, ps[n - 1].(dst := name));
    case ChunkStart(a, b) =>
      var cs := ps[n - 1].chunks;
      assert (cs + [Chunk(a, b, [])])[..|cs|] == cs;
      AllLinesUpdate(ps, n - 1, ps[n - 1].(chunks := cs + [Chunk(a, b, [])]));
    case Body(line) =>
      var k := r.current.value;
      var cs := ps[k].chunks;
      assert WithLine(ps[k], line).chunks[..|cs| - 1] == cs[..|cs| - 1];
      AllLinesUpdate(ps, k, WithLine(ps[k], line));
  }

  lemma {:induction false} ReadCounts(text: seq<string>)
    requires Read(NOTHING_READ, text).Some?
    ensures AllLines(Read(NOTHING_READ, text).value.patches) == Count(IsBody, text)
    decreases |text|
  {
    if text != [] {
      var n := |text| - 1;
      ReadCounts(text[..n]);
      ReadLineCounts(Read(NOTHING_READ, text[..n]).value, text[n]);
    }
  }

  lemma {:induction false} CountAppend(f: string -> bool, a: seq<string>, b: seq<string>)
    ensures Count(f, a + b) == Count(f, a) + Count(f, b)
    decreases |b|
  {
    if b == [] {
      assert a + b == a;
    } else {
      var n := |b| - 1;
      CountAppend(f, a, b[..n]);
      assert (a + b)[..|a + b| - 1] == a + b[..n] && (a + b)[|a + b| - 1] == b[n];
    }
  }

  lemma CountOne(f: string -> bool, line: string)
    ensures Count(f, [line]) == if f(line) then 1 else 0
  {
    assert [line][..0] == [];
  }

  /** Writing loses, for a reader, exactly the lines that g rejects; here: at least one when there is one. */
  lemma {:induction false} LinesCount(f: string -> bool, g: Line -> bool, lines: seq<Line>, bad: Option<nat>)
    requires Picks(f, g) && forall i :: 0 <= i < |lines| ==> NewlineFree(lines[i].text)
    requires bad.Some? ==> bad.value < |lines| && !g(lines[bad.value])
    ensures Count(f, WriteLines(lines)) + (if bad.Some? then 1 else 0) <= |lines|
    decreases |lines|
  {
    if lines != [] {
      var n := |lines| - 1;
      var front := lines[..n];
      LinesCount(f, g, front, if bad.Some? && bad.value < n then bad else None);
      CountAppend(f, WriteLines(front), [WriteLine(lines[n])]);
      CountOne(f, WriteLine(lines[n]));
    }
  }

  lemma ChunkCount(f: string -> bool, g: Line -> bool, c: Chunk, bad: Option<nat>)
    requires Picks(f, g) && PlainChunk(c)
    requires bad.Some? ==> bad.value < |c.lines| && !g(c.lines[bad.value])
    ensures Count(f, WriteChunk(c)) + (if bad.Some? then 1 else 0) <= |c.lines|
  {
    CountOne(f, WriteHeader(c));
    CountAppend(f, [WriteHeader(c)], WriteLines(c.lines));
    LinesCount(f, g, c.lines, bad);
  }

  lemma {:induction false} ChunksCount(f: string -> bool, chunks: seq<Chunk>, bad: nat)
    requires bad <= |chunks|
    requires forall j :: 0 <= j < |chunks| ==>
      Count(f, WriteChunk(chunks[j])) + (if j == bad then 1 else 0) <= |chunks[j].lines|
    ensures Count(f, WriteChunks(chunks)) + (if bad < |chunks| then 1 else 0) <= ChunkLines(chunks)
    decreases |chunks|
  {
    if chunks != [] {
      var n := |chunks| - 1;
      var front := chunks[..n];
      assert forall j :: 0 <= j < n ==> front[j] == chunks[j];
      ChunksCount(f, front, if bad < n then bad else n);
      CountAppend(f, WriteChunks(front), WriteChunk(chunks[n]));
    }
  }

  lemma PatchCount(f: string -> bool, g: Line -> bool, p: PatchV, bad: Option<(nat, nat)>)
    requires Picks(f, g) && PlainPatch(p)
    requires bad.Some? ==> bad.value.0 < |p.chunks| && bad.value.1 < |p.chunks[bad.value.0].lines|
    requires bad.Some? ==> !g(p.chunks[bad.value.0].lines[bad.value.1])
    ensures Count(f, WritePatch(p)) + (if bad.Some? then 1 else 0) <= ChunkLines(p.chunks)
  {
    var a, b := "--- " + p.src + "\n", "+++ " + p.dst + "\n";
    CountOne(f, a);
    CountOne(f, b);
    CountAppend(f, [a], [b]);
    assert [a] + [b] == [a, b];
    CountAppend(f, [a, b], WriteChunks(p.chunks));
    var where := if bad.Some? then bad.value.0 else |p.chunks|;
    forall j | 0 <= j < |p.chunks|
      ensures Count(f, WriteChunk(p.chunks[j])) + (if j == where then 1 else 0) <= |p.chunks[j].lines|
    {
      ChunkCount(f, g, p.chunks[j], if j == where then Some(bad.value.1) else None);
    }
    ChunksCount(f, p.chunks, where);
  }

  lemma {:induction false} AllCount(f: string -> bool, ps: seq<PatchV>, bad: nat)
    requires bad <= |ps|
    requires forall k :: 0 <= k < |ps| ==>
      Count(f, WritePatch(ps[k])) + (if k == bad then 1 else 0) <= ChunkLines(ps[k].chunks)
    ensures Count(f, WriteAll(ps)) + (if bad < |ps| then 1 else 0) <= AllLines(ps)
    decreases |ps|
  {
    if ps != [] {
      var n := |ps| - 1;
      var front := ps[..n];
      assert forall k :: 0 <= k < n ==> front[k] == ps[k];
      AllCount(f, front, if bad < n then bad else n);
      CountAppend(f, WriteAll(front), WritePatch(ps[n]));
    }
  }

  // ---------------------------------------------------------------- nothing else is written

  ghost function AllChunks(ps: seq<PatchV>): nat {
    if ps == [] then 0 else AllChunks(ps[..|ps| - 1]) + |ps[|ps| - 1].chunks|
  }

  lemma {:induction false} LinesWritten(lines: seq<Line>)
    ensures |WriteLines(lines)| == |lines|
    decreases |lines|
  {
    if lines != [] {
      LinesWritten(lines[..|lines| - 1]);
    }
  }

  lemma {:induction false} ChunksWritten(chunks: seq<Chunk>)
    ensures |WriteChunks(chunks)| == |chunks| + ChunkLines(chunks)
    decreases |chunks|
  {
    if chunks != [] {
      ChunksWritten(chunks[..|chunks| - 1]);
      LinesWritten(chunks[|chunks| - 1].lines);
    }
  }

  /** Two lines are written for each patch, one for each chunk and one for each of its lines. */
  lemma {:induction false} AllWritten(ps: seq<PatchV>)
    ensures |WriteAll(ps)| == 2 * |ps| + AllChunks(ps) + AllLines(ps)
    decreases |ps|
  {
    if ps != [] {
      AllWritten(ps[..|ps| - 1]);
      ChunksWritten(ps[|ps| - 1].chunks);
    }
  }

  /** A newline-free patchset is read back from what is written exactly when no removed line begins with
      `-- ` and no added line with `++ `. */
  lemma ParseOfWrite(ps: seq<PatchV>)
    requires Plain(ps)
    ensures Parse(WriteAll(ps)) == Some(ps) <==> Unambiguous(ps)
  {
    if Unambiguous(ps) {
      AllReadBack(ps);
    } else {
      var k :| 0 <= k < |ps| && !GoodPatch(ps[k]);
      var j :| 0 <= j < |ps[k].chunks| && !GoodChunk(ps[k].chunks[j]);
      var i :| 0 <= i < |ps[k].chunks[j].lines| && !GoodLine(ps[k].chunks[j].lines[i]);
      LostLine(ps, k, j, i);
    }
  }

  lemma LostLine(ps: seq<PatchV>, k: nat, j: nat, i: nat)
    requires Plain(ps) && k < |ps| && j < |ps[k].chunks| && i < |ps[k].chunks[j].lines|
    requires !GoodLine(ps[k].chunks[j].lines[i])
    ensures Parse(WriteAll(ps)) != Some(ps)
  {
    if Parse(WriteAll(ps)) == Some(ps) {
      ReadCounts(WriteAll(ps));
      IsBodyPicksGoodLines();
      forall m | 0 <= m < |ps|
        ensures Count(IsBody, WritePatch(ps[m])) + (if m == k then 1 else 0) <= ChunkLines(ps[m].chunks)
      {
        PatchCount(IsBody, GoodLine, ps[m], if m == k then Some((j, i)) else None);
      }
      AllCount(IsBody, ps, k);
    }
  }
}
