/** What a whole text is read as, told from its lines: which lists of lines are accepted, and where each line goes. */
module PatchMeaning {
  import opened Options
  import opened PatchLines
  import opened PatchRoundTrip
  import opened PatchText

  function Kinds(text: seq<string>): (ks: seq<LineKind>)
    ensures |ks| == |text| && forall i :: 0 <= i < |ks| ==> ks[i] == Classify(text[i])
  {
    seq(|text|, i requires 0 <= i < |text| => Classify(text[i]))
  }

  /** Every line is of some kind; a patch must have begun before its other headers, and a chunk before its lines. */
  ghost predicate Readable(ks: seq<LineKind>, inPatch: bool, inChunk: bool) {
    && (forall i :: 0 <= i < |ks| ==> !ks[i].Bad?)
    && (forall i :: 0 <= i < |ks| && (ks[i].DstFile? || ks[i].ChunkStart?) ==>
          inPatch || exists j :: 0 <= j < i && ks[j].SrcFile?)
    && (forall i :: 0 <= i < |ks| && ks[i].Body? ==> inChunk || exists j :: 0 <= j < i && ks[j].ChunkStart?)
  }

  /** The lines of a chunk: all up to the next chunk header, even behind the header of the next patch. */
  function LinesIn(ks: seq<LineKind>): seq<Line> {
    if ks == [] || ks[0].ChunkStart? then []
    else (if ks[0].Body? then [ks[0].line] else []) + LinesIn(ks[1..])
  }

  /** The chunks of a patch: all up to the next patch. */
  function ChunksIn(ks: seq<LineKind>): seq<Chunk> {
    if ks == [] || ks[0].SrcFile? then []
    else
      (if ks[0].ChunkStart? then [Chunk(ks[0].srcPos, ks[0].dstPos, LinesIn(ks[1..]))] else []) + ChunksIn(ks[1..])
  }

  /** The new file of a patch: the last one named up to the next patch. */
  function DstIn(ks: seq<LineKind>, dst: string): string {
    if ks == [] || ks[0].SrcFile? then dst
    else DstIn(ks[1..], if ks[0].DstFile? then ks[0].name else dst)
  }

  function PatchesIn(ks: seq<LineKind>): seq<PatchV> {
    if ks == [] then []
    else
      (if ks[0].SrcFile? then [PatchV(ks[0].name, DstIn(ks[1..], ""), ChunksIn(ks[1..]))] else []) + PatchesIn(ks[1..])
  }

  // ---------------------------------------------------------------- from the middle of a text

  function ReadOn(r: Reader, ks: seq<LineKind>): (after: Option<Reader>)
    requires ValidReader(r)
    ensures after.Some? ==> ValidReader(after.value)
    decreases |ks|
  {
    if ks == [] then Some(r) else
      match ReadKind(r, ks[0])
      case None => None
      case Some(r') => ReadOn(r', ks[1..])
  }

  lemma {:induction false} ReadIsReadOn(r: Reader, text: seq<string>)
    requires ValidReader(r)
    ensures Read(r, text) == ReadOn(r, Kinds(text))
    decreases |text|
  {
    if text != [] {
      assert text == [text[0]] + text[1..] && Kinds(text)[1..] == Kinds(text[1..]);
      ReadAppend(r, [text[0]], text[1..]);
      ReadOne(r, text[0]);
      if ReadLine(r, text[0]).Some? {
        ReadIsReadOn(ReadLine(r, text[0]).value, text[1..]);
      }
    }
  }

  ghost predicate ReadableFrom(r: Reader, ks: seq<LineKind>) {
    Readable(ks, r.patches != [], r.current.Some?)
  }

  function MoreLines(p: PatchV, lines: seq<Line>): PatchV
    requires p.chunks != []
  {
    var n := |p.chunks| - 1;
    p.(chunks := p.chunks[n := p.chunks[n].(lines := p.chunks[n].lines + lines)])
  }

  /** The current chunk takes the lines up to the next chunk header. */
  function LinesTaken(r: Reader, ks: seq<LineKind>): seq<PatchV>
    requires ValidReader(r)
  {
    if r.current.None? then r.patches else
      r.patches[r.current.value := MoreLines(r.patches[r.current.value], LinesIn(ks))]
  }

  function Completed(p: PatchV, ks: seq<LineKind>): PatchV {
    PatchV(p.src, DstIn(ks, p.dst), p.chunks + ChunksIn(ks))
  }

  function Finished(ps: seq<PatchV>, ks: seq<LineKind>): seq<PatchV> {
    (if ps == [] then [] else ps[..|ps| - 1] + [Completed(ps[|ps| - 1], ks)]) + PatchesIn(ks)
  }

  lemma SameLinesTaken(r: Reader, kind: LineKind, ks: seq<LineKind>)
    requires ValidReader(r) && (kind.SrcFile? || kind.DstFile?)
    ensures LinesTaken(r, [kind] + ks) == LinesTaken(r, ks)
  {
    assert ([kind] + ks)[1..] == ks;
    assert [] + LinesIn(ks) == LinesIn(ks);
  }

  lemma AfterSrcFile(r: Reader, name: string, ks: seq<LineKind>)
    requires ValidReader(r)
    ensures Finished(LinesTaken(ReadKind(r, SrcFile(name)).value, ks), ks)
         == Finished(LinesTaken(r, [SrcFile(name)] + ks), [SrcFile(name)] + ks)
  {
    var k := [SrcFile(name)] + ks;
    var ps, p := LinesTaken(r, ks), PatchV(name, "", []);
    SameLinesTaken(r, SrcFile(name), ks);
    assert LinesTaken(ReadKind(r, SrcFile(name)).value, ks) == ps + [p];
    assert k[1..] == ks && Completed(p, ks) == PatchV(name, DstIn(ks, ""), ChunksIn(ks));
    if ps != [] {
      assert Completed(ps[|ps| - 1], k) == ps[|ps| - 1];
      assert ps[..|ps| - 1] + [ps[|ps| - 1]] == ps;
    }
    assert (ps + [p])[..|ps|] == ps;
    assert ps + [Completed(p, ks)] + PatchesIn(ks) == ps + ([Completed(p, ks)] + PatchesIn(ks));
  }

  lemma DstAndLines(r: Reader, name: string, ks: seq<LineKind>)
    requires ValidReader(r) && r.patches != []
    ensures var ps, n := LinesTaken(r, ks), |r.patches| - 1;
      LinesTaken(ReadKind(r, DstFile(name)).value, ks) == ps[n := ps[n].(dst := name)]
  {
  }

  lemma AfterDstFile(r: Reader, name: string, ks: seq<LineKind>)
    requires ValidReader(r) && r.patches != []
    ensures Finished(LinesTaken(ReadKind(r, DstFile(name)).value, ks), ks)
         == Finished(LinesTaken(r, [DstFile(name)] + ks), [DstFile(name)] + ks)
  {
    var k := [DstFile(name)] + ks;
    var ps, n := LinesTaken(r, ks), |r.patches| - 1;
    SameLinesTaken(r, DstFile(name), ks);
    DstAndLines(r, name, ks);
    assert k[1..] == ks && [] + ChunksIn(ks) == ChunksIn(ks);
    assert Completed(ps[n].(dst := name), ks) == Completed(ps[n], k);
    assert ps[n := ps[n].(dst := name)][..n] == ps[..n];
    assert [] + PatchesIn(ks) == PatchesIn(ks);
  }

  lemma AfterBody(r: Reader, line: Line, ks: seq<LineKind>)
    requires ValidReader(r) && r.current.Some?
    ensures Finished(LinesTaken(ReadKind(r, Body(line)).value, ks), ks)
         == Finished(LinesTaken(r, [Body(line)] + ks), [Body(line)] + ks)
  {
    var k := [Body(line)] + ks;
    assert k[1..] == ks;
    var p := r.patches[r.current.value];
    MoreLinesTwice(p, line, LinesIn(ks));
    assert LinesTaken(ReadKind(r, Body(line)).value, ks) == LinesTaken(r, k);
    var ps := LinesTaken(r, k);
    assert Completed(ps[|ps| - 1], ks) == Completed(ps[|ps| - 1], k);
  }

  lemma MoreLinesTwice(p: PatchV, line: Line, lines: seq<Line>)
    requires p.chunks != []
    ensures MoreLines(WithLine(p, line), lines) == MoreLines(p, [line] + lines)
  {
    var n := |p.chunks| - 1;
    var c := p.chunks[n];
    assert c.lines + [line] + lines == c.lines + ([line] + lines);
    assert MoreLines(WithLine(p, line), lines).chunks == MoreLines(p, [line] + lines).chunks;
  }

  lemma NoLinesTaken(r: Reader, ks: seq<LineKind>)
    requires ValidReader(r) && (LinesIn(ks) == [] || r.current.None?)
    ensures LinesTaken(r, ks) == r.patches
  {
    if r.current.Some? {
      var p := r.patches[r.current.value];
      var n := |p.chunks| - 1;
      assert p.chunks[n].lines + [] == p.chunks[n].lines;
      assert MoreLines(p, []) == p;
    }
  }

  lemma AfterChunkStart(r: Reader, a: nat, b: nat, ks: seq<LineKind>)
    requires ValidReader(r) && r.patches != []
    ensures Finished(LinesTaken(ReadKind(r, ChunkStart(a, b)).value, ks), ks)
         == Finished(LinesTaken(r, [ChunkStart(a, b)] + ks), [ChunkStart(a, b)] + ks)
  {
    var k := [ChunkStart(a, b)] + ks;
    assert k[1..] == ks;
    NoLinesTaken(r, k);
    var ps, n := r.patches, |r.patches| - 1;
    var c := Chunk(a, b, LinesIn(ks));
    var p := ps[n].(chunks := ps[n].chunks + [Chunk(a, b, [])]);
    assert [] + LinesIn(ks) == LinesIn(ks);
    assert MoreLines(p, LinesIn(ks)).chunks == ps[n].chunks + [c];
    var q := MoreLines(p, LinesIn(ks));
    assert LinesTaken(ReadKind(r, ChunkStart(a, b)).value, ks) == ps[n := q];
    assert ps[n].chunks + [c] + ChunksIn(ks) == ps[n].chunks + ([c] + ChunksIn(ks));
    assert Completed(q, ks) == Completed(ps[n], k);
    assert ps[n := q][..n] == ps[..n];
  }

  lemma AfterOne(r: Reader, kind: LineKind, ks: seq<LineKind>)
    requires ValidReader(r) && ReadKind(r, kind).Some?
    ensures Finished(LinesTaken(ReadKind(r, kind).value, ks), ks)
         == Finished(LinesTaken(r, [kind] + ks), [kind] + ks)
  {
    match kind
    case SrcFile(name) => AfterSrcFile(r, name, ks);
    case DstFile(name) => AfterDstFile(r, name, ks);
    case ChunkStart(a, b) => AfterChunkStart(r, a, b, ks);
    case Body(line) => AfterBody(r, line, ks);
  }

  /** What may follow a line depends on the line alone and on what was there before it. */
  lemma ReadableStep(r: Reader, ks: seq<LineKind>)
    requires ValidReader(r) && ks != []
    ensures ReadableFrom(r, ks)
       <==> ReadKind(r, ks[0]).Some? && ReadableFrom(ReadKind(r, ks[0]).value, ks[1..])
  {
    if ReadableFrom(r, ks) {
      StepReadable(r, ks);
    }
    if ReadKind(r, ks[0]).Some? && ReadableFrom(ReadKind(r, ks[0]).value, ks[1..]) {
      ReadableBack(r, ks);
    }
  }

  lemma StepReadable(r: Reader, ks: seq<LineKind>)
    requires ValidReader(r) && ks != [] && ReadableFrom(r, ks)
    ensures ReadKind(r, ks[0]).Some? && ReadableFrom(ReadKind(r, ks[0]).value, ks[1..])
  {
    var r', rest := ReadKind(r, ks[0]).value, ks[1..];
    assert r'.patches != [];
    forall i | 0 <= i < |rest|
      ensures !rest[i].Bad?
      ensures rest[i].Body? ==> r'.current.Some? || exists j :: 0 <= j < i && rest[j].ChunkStart?
    {
      assert rest[i] == ks[i + 1];
      if j :| 0 <= j < i + 1 && ks[j].ChunkStart? {
        assert j > 0 ==> rest[j - 1].ChunkStart?;
      }
    }
  }

  lemma ReadableBack(r: Reader, ks: seq<LineKind>)
    requires ValidReader(r) && ks != []
    requires ReadKind(r, ks[0]).Some? && ReadableFrom(ReadKind(r, ks[0]).value, ks[1..])
    ensures ReadableFrom(r, ks)
  {
    var r', rest := ReadKind(r, ks[0]).value, ks[1..];
    forall i | 0 <= i < |ks|
      ensures !ks[i].Bad?
      ensures ks[i].DstFile? || ks[i].ChunkStart? ==> r.patches != [] || exists j :: 0 <= j < i && ks[j].SrcFile?
      ensures ks[i].Body? ==> r.current.Some? || exists j :: 0 <= j < i && ks[j].ChunkStart?
    {
      if i > 0 {
        assert ks[i] == rest[i - 1];
        if j :| 0 <= j < i - 1 && rest[j].SrcFile? {
          assert ks[j + 1].SrcFile?;
        }
        if j :| 0 <= j < i - 1 && rest[j].ChunkStart? {
          assert ks[j + 1].ChunkStart?;
        }
      }
    }
  }

  lemma {:induction false} ReadOnMeans(r: Reader, ks: seq<LineKind>)
    requires ValidReader(r)
    ensures ReadOn(r, ks).Some? <==> ReadableFrom(r, ks)
    ensures ReadOn(r, ks).Some? ==> ReadOn(r, ks).value.patches == Finished(LinesTaken(r, ks), ks)
    decreases |ks|
  {
    if ks == [] {
      NoLinesTaken(r, []);
      if r.patches != [] {
        var n := |r.patches| - 1;
        assert Completed(r.patches[n], []) == r.patches[n];
        assert r.patches[..n] + [r.patches[n]] == r.patches;
      }
    } else {
      ReadableStep(r, ks);
      if ReadKind(r, ks[0]).Some? {
        ReadOnMeans(ReadKind(r, ks[0]).value, ks[1..]);
        AfterOne(r, ks[0], ks[1..]);
        assert [ks[0]] + ks[1..] == ks;
      }
    }
  }

  /** A text is read exactly when it is readable: each header naming an old file begins a patch, which has the last
      new file named for it and the chunks begun for it, and each chunk has the lines up to the next one. */
  lemma ParseIffReadable(text: seq<string>)
    ensures Parse(text) == if Readable(Kinds(text), false, false) then Some(PatchesIn(Kinds(text))) else None
  {
    var ks := Kinds(text);
    ReadIsReadOn(NOTHING_READ, text);
    ReadOnMeans(NOTHING_READ, ks);
    NoLinesTaken(NOTHING_READ, ks);
    assert [] + PatchesIn(ks) == PatchesIn(ks);
  }

  /** A line that is nothing else makes the whole text unreadable, wherever it stands. */
  lemma UnreadableLineFails(text: seq<string>, i: nat)
    requires i < |text| && Unreadable(text[i])
    ensures Parse(text) == None
  {
    BadIff(text[i]);
    ParseIffReadable(text);
    assert Kinds(text)[i] == Bad;
  }
}
