/** The objects of utils/check-style.py: chunks and patches that are filled in as they are read, and written out. */
module Patches {
  import opened Options
  import PatchRoundTrip
  import opened PatchText
  import Sequences

  /** The lines that satisfy a test, in their order. */
  function Chosen(lines: seq<Line>, test: Line -> bool): seq<Line> {
    if lines == [] then [] else
      var n := |lines| - 1;
      Chosen(lines[..n], test) + if test(lines[n]) then [lines[n]] else []
  }

  lemma {:induction false} ChosenCounts(lines: seq<Line>)
    ensures |Chosen(lines, IsSrc)| == SrcLen(lines) && |Chosen(lines, IsDst)| == DstLen(lines)
    decreases |lines|
  {
    if lines != [] {
      ChosenCounts(lines[..|lines| - 1]);
    }
  }

  lemma {:induction false} ChosenAt(lines: seq<Line>, test: Line -> bool, i: nat)
    requires i < |lines| && test(lines[i])
    ensures |Chosen(lines[..i], test)| < |Chosen(lines, test)|
    ensures Chosen(lines, test)[|Chosen(lines[..i], test)|] == lines[i]
    decreases |lines|
  {
    var n := |lines| - 1;
    if i < n {
      ChosenAt(lines[..n], test, i);
      assert lines[..n][..i] == lines[..i];
    }
  }

  lemma ChosenAppend(lines: seq<Line>, l: Line, test: Line -> bool)
    ensures Chosen(lines + [l], test) == Chosen(lines, test) + if test(l) then [l] else []
  {
    assert (lines + [l])[..|lines|] == lines;
  }

  lemma ChosenTwice(lines: seq<Line>, l: Line, test: Line -> bool, test': Line -> bool)
    ensures Chosen(Chosen(lines + [l], test), test')
         == Chosen(Chosen(lines, test), test') + if test(l) && test'(l) then [l] else []
  {
    ChosenAppend(lines, l, test);
    if test(l) {
      ChosenAppend(Chosen(lines, test), l, test');
    } else {
      Sequences.AppendNothing(Chosen(lines, test));
    }
  }

  /** What the two versions of a chunk have in common are its context lines; every line is in one of them. */
  lemma {:induction false} VersionsShareContext(lines: seq<Line>)
    ensures Chosen(Chosen(lines, IsSrc), IsDst) == Chosen(Chosen(lines, IsDst), IsSrc)
    ensures |Chosen(lines, IsSrc)| + |Chosen(lines, IsDst)| == |lines| + |Chosen(Chosen(lines, IsSrc), IsDst)|
    decreases |lines|
  {
    if lines != [] {
      var n := |lines| - 1;
      VersionsShareContext(lines[..n]);
      assert lines == lines[..n] + [lines[n]];
      ChosenAppend(lines[..n], lines[n], IsSrc);
      ChosenAppend(lines[..n], lines[n], IsDst);
      ChosenTwice(lines[..n], lines[n], IsSrc, IsDst);
      ChosenTwice(lines[..n], lines[n], IsDst, IsSrc);
    }
  }

  class PatchChunk {
    const srcPos: nat
    const dstPos: nat
    var lines: seq<Line>
    /** Which patch the chunk belongs to, and where in it. */
    ghost var owner: object?
    ghost var index: nat

    constructor (srcPos: nat, dstPos: nat)
      ensures this.srcPos == srcPos && this.dstPos == dstPos && lines == [] && owner == null
    {
      this.srcPos, this.dstPos, lines := srcPos, dstPos, [];
      owner, index := null, 0;
    }

    function Contents(): Chunk
      reads this
    {
      Chunk(srcPos, dstPos, lines)
    }

    method AddLine(line: Line)
      modifies this`lines
      ensures lines == old(lines) + [line]
    {
      lines := lines + [line];
    }

    /** The lines of the old version. */
    method Src() returns (src: seq<Line>)
      ensures src == Chosen(lines, IsSrc) && |src| == SrcLen(lines)
    {
      src := [];
      for i := 0 to |lines|
        invariant src == Chosen(lines[..i], IsSrc)
      {
        assert lines[..i + 1][..i] == lines[..i];
        if IsSrc(lines[i]) {
          src := src + [lines[i]];
        }
      }
      assert lines[..|lines|] == lines;
      ChosenCounts(lines);
    }

    /** The lines of the new version. */
    method Dst() returns (dst: seq<Line>)
      ensures dst == Chosen(lines, IsDst) && |dst| == DstLen(lines)
    {
      dst := [];
      for i := 0 to |lines|
        invariant dst == Chosen(lines[..i], IsDst)
      {
        assert lines[..i + 1][..i] == lines[..i];
        if IsDst(lines[i]) {
          dst := dst + [lines[i]];
        }
      }
      assert lines[..|lines|] == lines;
      ChosenCounts(lines);
    }

    method WriteBody(f0: seq<string>) returns (f: seq<string>)
      ensures f == f0 + WriteLines(lines)
    {
      f := f0;
      for i := 0 to |lines|
        invariant f == f0 + WriteLines(lines[..i])
      {
        assert lines[..i + 1][..i] == lines[..i];
        f := f + [WriteLine(lines[i])];
      }
      assert lines[..|lines|] == lines;
    }

    /** Writes the header, with the counts of both versions, and then the lines. */
    method Write(f0: seq<string>) returns (f: seq<string>)
      ensures f == f0 + WriteChunk(Contents())
    {
      var src := Src();
      var dst := Dst();
      var header := "@@ -" + WriteNumberPair(srcPos, |src|, " +" + WriteNumberPair(dstPos, |dst|, " @@\n"));
      f := WriteBody(f0 + [header]);
      Sequences.Regroup(f0, [header], WriteLines(lines));
    }
  }

  lemma WriteChunksStep(chunks: seq<Chunk>, i: nat)
    requires i < |chunks|
    ensures WriteChunks(chunks[..i + 1]) == WriteChunks(chunks[..i]) + WriteChunk(chunks[i])
  {
    assert chunks[..i + 1][..i] == chunks[..i];
  }

  class Patch {
    var src: string
    var dst: string
    var chunks: seq<PatchChunk>

    constructor ()
      ensures src == "" && dst == "" && chunks == []
    {
      src, dst, chunks := "", "", [];
    }

    /** Each chunk knows its place, so no chunk is in two places. */
    ghost predicate Valid()
      reads this, chunks
    {
      forall j :: 0 <= j < |chunks| ==> chunks[j].owner == this && chunks[j].index == j
    }

    ghost predicate Shows(p: PatchV)
      reads this, chunks
    {
      && src == p.src && dst == p.dst && |chunks| == |p.chunks|
      && forall j :: 0 <= j < |chunks| ==> chunks[j].Contents() == p.chunks[j]
    }

    method AddChunk(chunk: PatchChunk, ghost p: PatchV)
      requires Valid() && Shows(p) && chunk.owner == null
      modifies this`chunks, chunk`owner, chunk`index
      ensures chunks == old(chunks) + [chunk] && Valid()
      ensures Shows(p.(chunks := p.chunks + [chunk.Contents()]))
    {
      chunk.owner, chunk.index := this, |chunks|;
      chunks := chunks + [chunk];
    }

    method SetSrc(src: string)
      modifies this`src
      ensures this.src == src
    {
      this.src := src;
    }

    method SetDst(dst: string)
      modifies this`dst
      ensures this.dst == dst
    {
      this.dst := dst;
    }

    method Write(f0: seq<string>, ghost p: PatchV) returns (f: seq<string>)
      requires Shows(p)
      ensures f == f0 + WritePatch(p)
    {
      f := f0 + ["--- " + src + "\n"];
      f := f + ["+++ " + dst + "\n"];
      assert f == f0 + ["--- " + p.src + "\n", "+++ " + p.dst + "\n"];
      ghost var f1 := f;
      f := WriteAllChunks(f, p);
      Sequences.Regroup(f0, ["--- " + p.src + "\n", "+++ " + p.dst + "\n"], WriteChunks(p.chunks));
    }

    method WriteAllChunks(f0: seq<string>, ghost p: PatchV) returns (f: seq<string>)
      requires Shows(p)
      ensures f == f0 + WriteChunks(p.chunks)
    {
      f := f0;
      for i := 0 to |chunks|
        invariant f == f0 + WriteChunks(p.chunks[..i])
      {
        WriteChunksStep(p.chunks, i);
        Sequences.Regroup(f0, WriteChunks(p.chunks[..i]), WriteChunk(p.chunks[i]));
        f := chunks[i].Write(f);
      }
      assert p.chunks[..|chunks|] == p.chunks;
    }
  }

  ghost function ChunkObjects(ps: seq<Patch>): (s: set<object>)
    reads ps
    ensures forall k, j :: 0 <= k < |ps| && 0 <= j < |ps[k].chunks| ==> ps[k].chunks[j] in s
  {
    set k, j | 0 <= k < |ps| && 0 <= j < |ps[k].chunks| :: ps[k].chunks[j]
  }

  /** Distinct patch objects showing the patches of a reader. */
  ghost predicate AllShow(ps: seq<Patch>, vs: seq<PatchV>)
    reads ps, ChunkObjects(ps)
  {
    && |ps| == |vs|
    && (forall k :: 0 <= k < |ps| ==> ps[k].Valid() && ps[k].Shows(vs[k]))
    && (forall k, m :: 0 <= k < m < |ps| ==> ps[k] != ps[m])
  }

  /** The current chunk is the last chunk of the patch the reader says. */
  ghost predicate Current(ps: seq<Patch>, r: Reader, chunk: PatchChunk?)
    reads ps
  {
    && (r.current.Some? <==> chunk != null)
    && (r.current.Some? ==> r.current.value < |ps| && ps[r.current.value].chunks != [])
    && (r.current.Some? ==> chunk == ps[r.current.value].chunks[|ps[r.current.value].chunks| - 1])
  }

  ghost predicate InStep(ps: seq<Patch>, r: Reader, chunk: PatchChunk?)
    reads ps, ChunkObjects(ps)
  {
    ValidReader(r) && AllShow(ps, r.patches) && Current(ps, r, chunk)
  }

  /** A header naming the old file starts a new patch. */
  method StartPatch(name: string, patchset0: seq<Patch>, ghost r: Reader, ghost chunk: PatchChunk?)
    returns (patchset: seq<Patch>)
    requires InStep(patchset0, r, chunk)
    ensures |patchset| == |patchset0| + 1 && patchset[..|patchset0|] == patchset0
    ensures fresh(patchset[|patchset0|])
    ensures InStep(patchset, ReadKind(r, SrcFile(name)).value, chunk)
  {
    var currentPatch := new Patch();
    currentPatch.SetSrc(name);
    patchset := patchset0 + [currentPatch];
  }

  /** A header naming the new file completes the last patch. */
  method NameDestination(name: string, currentPatch: Patch, ghost patchset: seq<Patch>, ghost r: Reader,
                         ghost chunk: PatchChunk?)
    requires patchset != [] && currentPatch == patchset[|patchset| - 1] && InStep(patchset, r, chunk)
    modifies currentPatch`dst
    ensures InStep(patchset, ReadKind(r, DstFile(name)).value, chunk)
  {
    currentPatch.SetDst(name);
  }

  /** A chunk header starts a chunk of the last patch. */
  method StartChunk(srcPos: nat, dstPos: nat, currentPatch: Patch, ghost patchset: seq<Patch>, ghost r: Reader,
                    ghost chunk0: PatchChunk?)
    returns (chunk: PatchChunk)
    requires patchset != [] && currentPatch == patchset[|patchset| - 1] && InStep(patchset, r, chunk0)
    modifies currentPatch`chunks
    ensures fresh(chunk)
    ensures InStep(patchset, ReadKind(r, ChunkStart(srcPos, dstPos)).value, chunk)
  {
    chunk := new PatchChunk(srcPos, dstPos);
    ghost var n := |patchset| - 1;
    currentPatch.AddChunk(chunk, r.patches[n]);
  }

  /** A line goes to the current chunk, whichever patch that belongs to. */
  method AddToCurrent(line: Line, chunk: PatchChunk, ghost patchset: seq<Patch>, ghost r: Reader)
    requires InStep(patchset, r, chunk)
    modifies chunk`lines
    ensures InStep(patchset, ReadKind(r, Body(line)).value, chunk)
  {
    ghost var k := r.current.value;
    chunk.AddLine(line);
    forall m, j | 0 <= m < |patchset| && 0 <= j < |patchset[m].chunks| && patchset[m].chunks[j] == chunk
      ensures m == k && j == |patchset[k].chunks| - 1
    {
      assert patchset[m].chunks[j].owner == patchset[m];
      assert patchset[k].Valid();
    }
  }

  lemma ReadStep(text: seq<string>, i: nat, r: Reader)
    requires i < |text| && Read(NOTHING_READ, text[..i]) == Some(r)
    ensures Read(NOTHING_READ, text[..i + 1]) == ReadLine(r, text[i])
  {
    assert text[..i + 1][..i] == text[..i];
  }

  lemma ReadFails(text: seq<string>, i: nat)
    requires i <= |text| && Read(NOTHING_READ, text[..i]).None?
    ensures Read(NOTHING_READ, text).None?
  {
    PatchRoundTrip.ReadAppend(NOTHING_READ, text[..i], text[i..]);
    assert text[..i] + text[i..] == text;
  }

  /** One pass of the reading loop. */
  method FeedLine(kind: LineKind, patchset0: seq<Patch>, currentChunk0: PatchChunk?, ghost r: Reader)
    returns (ok: bool, patchset: seq<Patch>, currentChunk: PatchChunk?)
    requires InStep(patchset0, r, currentChunk0)
    modifies patchset0, currentChunk0
    ensures ok <==> ReadKind(r, kind).Some?
    ensures ok ==> InStep(patchset, ReadKind(r, kind).value, currentChunk)
    ensures ok ==> forall k :: 0 <= k < |patchset| ==>
      (k < |patchset0| && patchset[k] == patchset0[k]) || fresh(patchset[k])
    ensures ok && currentChunk != null ==> currentChunk == currentChunk0 || fresh(currentChunk)
  {
    ok, patchset, currentChunk := true, patchset0, currentChunk0;
    match kind
    case SrcFile(name) =>
      patchset := StartPatch(name, patchset, r, currentChunk);
    case DstFile(name) =>
      if patchset == [] {
        ok := false;
      } else {
        NameDestination(name, patchset[|patchset| - 1], patchset, r, currentChunk);
      }
    case ChunkStart(a, b) =>
      if patchset == [] {
        ok := false;
      } else {
        currentChunk := StartChunk(a, b, patchset[|patchset| - 1], patchset, r, currentChunk);
      }
    case Body(l) =>
      if currentChunk == null {
        ok := false;
      } else {
        AddToCurrent(l, currentChunk, patchset, r);
      }
    case Bad =>
      ok := false;
  }

  /** Reads lines into patch objects; None where the program raises. */
  method ParsePatchset(generator: seq<string>) returns (result: Option<seq<Patch>>)
    ensures result.Some? <==> Parse(generator).Some?
    ensures result.Some? ==> AllShow(result.value, Parse(generator).value)
  {
    var patchset: seq<Patch> := [];
    var currentChunk: PatchChunk? := null;
    ghost var r := NOTHING_READ;
    for i := 0 to |generator|
      invariant Read(NOTHING_READ, generator[..i]) == Some(r)
      invariant InStep(patchset, r, currentChunk)
      invariant forall k :: 0 <= k < |patchset| ==> fresh(patchset[k])
      invariant currentChunk != null ==> fresh(currentChunk)
    {
      ReadStep(generator, i, r);
      var ok;
      ok, patchset, currentChunk := FeedLine(Classify(generator[i]), patchset, currentChunk, r);
      if !ok {
        ReadFails(generator, i + 1);
        return None;
      }
      r := ReadLine(r, generator[i]).value;
    }
    assert generator[..|generator|] == generator;
    return Some(patchset);
  }
}
