/** The patch format of utils/check-style.py: how a patchset is written, line by line, and read back. */
module PatchText {

  import opened Options

  datatype Kind = SRC | DST | BOTH

  datatype Line = Line(kind: Kind, text: string)

  datatype Chunk = Chunk(srcPos: nat, dstPos: nat, lines: seq<Line>)

  datatype PatchV = PatchV(src: string, dst: string, chunks: seq<Chunk>)

  // ---------------------------------------------------------------- decimal numbers

  function DigitChar(d: nat): char
    requires d < 10
  {
    '0' + d as char
  }

  predicate IsDigit(c: char) {
    '0' <= c <= '9'
  }

  function DigitValue(c: char): nat
    requires IsDigit(c)
  {
    (c - '0') as int
  }

  /** %d of a number that is not negative. */
  function Decimal(n: nat): string {
    if n < 10 then [DigitChar(n)] else Decimal(n / 10) + [DigitChar(n % 10)]
  }

  function NumberOf(s: string): nat
    requires forall i :: 0 <= i < |s| ==> IsDigit(s[i])
  {
    if s == "" then 0 else 10 * NumberOf(s[..|s| - 1]) + DigitValue(s[|s| - 1])
  }

  function DigitsLength(s: string): (n: nat)
    ensures n <= |s| && (forall i :: 0 <= i < n ==> IsDigit(s[i])) && (n < |s| ==> !IsDigit(s[n]))
  {
    if s == "" || !IsDigit(s[0]) then 0 else 1 + DigitsLength(s[1..])
  }

  lemma {:induction false} DecimalReadsBack(n: nat)
    ensures Decimal(n) != "" && (forall i :: 0 <= i < |Decimal(n)| ==> IsDigit(Decimal(n)[i]))
    ensures NumberOf(Decimal(n)) == n
    ensures if n < 10 then |Decimal(n)| == 1 else Decimal(n)[0] != '0'
    decreases n
  {
    if n < 10 {
      assert Decimal(n)[..0] == "";
    } else {
      DecimalReadsBack(n / 10);
      assert Decimal(n)[..|Decimal(n)| - 1] == Decimal(n / 10);
    }
  }

  lemma {:induction false} DigitsLengthIs(s: string, rest: string)
    requires (forall i :: 0 <= i < |s| ==> IsDigit(s[i])) && (rest != "" ==> !IsDigit(rest[0]))
    ensures DigitsLength(s + rest) == |s|
    decreases |s|
  {
    if s == "" {
      assert s + rest == rest;
    } else {
      assert (s + rest)[1..] == s[1..] + rest;
      DigitsLengthIs(s[1..], rest);
    }
  }

  // ---------------------------------------------------------------- reading one line

  datatype LineKind =
    | SrcFile(name: string)
    | DstFile(name: string)
    | ChunkStart(srcPos: nat, dstPos: nat)
    | Body(line: Line)
    | Bad

  function Drop(s: string, prefix: string): Option<string> {
    if prefix <= s then Some(s[|prefix|..]) else None
  }

  predicate NewlineFree(s: string) {
    forall i :: 0 <= i < |s| ==> s[i] != '\n'
  }

  /** What (.*)$ matches: all that is left, less one final newline, when no other newline is in it. */
  function RestOfLine(s: string): Option<string> {
    if NewlineFree(s) then Some(s)
    else if NewlineFree(s[..|s| - 1]) then Some(s[..|s| - 1])
    else None
  }

  function After(line: string, prefix: string): Option<string> {
    match Drop(line, prefix)
    case None => None
    case Some(s) => RestOfLine(s)
  }

  /** A nonempty run of digits, and what follows it. */
  function Number(s: string): Option<(nat, string)> {
    var n := DigitsLength(s);
    if n == 0 then None else Some((NumberOf(s[..n]), s[n..]))
  }

  function NumberPair(s: string): Option<(nat, nat, string)> {
    match Number(s)
    case None => None
    case Some((a, s1)) =>
      match Drop(s1, ",")
      case None => None
      case Some(s2) =>
        match Number(s2)
        case None => None
        case Some((b, s3)) => Some((a, b, s3))
  }

  function HeaderEnd(first: (nat, nat), s: string): Option<(nat, nat, nat, nat)> {
    match NumberPair(s)
    case None => None
    case Some((c, d, rest)) => if " @@" <= rest then Some((first.0, first.1, c, d)) else None
  }

  function HeaderMiddle(s: string): Option<(nat, nat, nat, nat)> {
    match NumberPair(s)
    case None => None
    case Some((a, b, rest)) =>
      match Drop(rest, " +")
      case None => None
      case Some(s') => HeaderEnd((a, b), s')
  }

  /** The pattern ^@@ -([0-9]+),([0-9]+) \+([0-9]+),([0-9]+) @@ with its four numbers. */
  function ChunkHeader(line: string): Option<(nat, nat, nat, nat)> {
    match Drop(line, "@@ -")
    case None => None
    case Some(s) => HeaderMiddle(s)
  }

  /** The tests of the reading loop, in its order. */
  function Classify(line: string): LineKind {
    if After(line, "--- ").Some? then SrcFile(After(line, "--- ").value)
    else if After(line, "+++ ").Some? then DstFile(After(line, "+++ ").value)
    else if ChunkHeader(line).Some? then ChunkStart(ChunkHeader(line).value.0, ChunkHeader(line).value.2)
    else if After(line, "-").Some? then Body(Line(SRC, After(line, "-").value))
    else if After(line, "+").Some? then Body(Line(DST, After(line, "+").value))
    else if After(line, " ").Some? then Body(Line(BOTH, After(line, " ").value))
    else Bad
  }

  // ---------------------------------------------------------------- reading a patchset

  /** The patches so far; `current` is the patch whose last chunk is the current chunk. */
  datatype Reader = Reader(patches: seq<PatchV>, current: Option<nat>)

  const NOTHING_READ := Reader([], None)

  predicate ValidReader(r: Reader) {
    r.current.Some? ==> r.current.value < |r.patches| && r.patches[r.current.value].chunks != []
  }

  function WithLine(p: PatchV, line: Line): PatchV
    requires p.chunks != []
  {
    var n := |p.chunks| - 1;
    p.(chunks := p.chunks[n := p.chunks[n].(lines := p.chunks[n].lines + [line])])
  }

  /** One line; None where the reader raises. Lines read before a patch's first chunk header still go to
      the current chunk, which may belong to the patch before. */
  function ReadKind(r: Reader, kind: LineKind): (after: Option<Reader>)
    requires ValidReader(r)
    ensures after.Some? ==> ValidReader(after.value)
  {
    var n := |r.patches|;
    match kind
    case SrcFile(name) => Some(r.(patches := r.patches + [PatchV(name, "", [])]))
    case DstFile(name) =>
      if n == 0 then None else Some(r.(patches := r.patches[n - 1 := r.patches[n - 1].(dst := name)]))
    case ChunkStart(a, b) =>
      if n == 0 then None else
        var p := r.patches[n - 1];
        Some(Reader(r.patches[n - 1 := p.(chunks := p.chunks + [Chunk(a, b, [])])], Some(n - 1)))
    case Body(line) =>
      if r.current.None? then None else
        var k := r.current.value;
        Some(r.(patches := r.patches[k := WithLine(r.patches[k], line)]))
    case Bad => None
  }

  function ReadLine(r: Reader, text: string): (after: Option<Reader>)
    requires ValidReader(r)
    ensures after.Some? ==> ValidReader(after.value)
  {
    ReadKind(r, Classify(text))
  }

  function Read(r: Reader, text: seq<string>): (after: Option<Reader>)
    requires ValidReader(r)
    ensures after.Some? ==> ValidReader(after.value)
    decreases |text|
  {
    if text == [] then Some(r) else
      match Read(r, text[..|text| - 1])
      case None => None
      case Some(r') => ReadLine(r', text[|text| - 1])
  }

  /** The patchset a list of lines is read as. */
  function Parse(text: seq<string>): Option<seq<PatchV>> {
    match Read(NOTHING_READ, text)
    case None => None
    case Some(r) => Some(r.patches)
  }

  // ---------------------------------------------------------------- writing

  function SignOf(k: Kind): string {
    match k
    case SRC => "-"
    case DST => "+"
    case BOTH => " "
  }

  function WriteLine(l: Line): string {
    SignOf(l.kind) + l.text + "\n"
  }

  predicate IsSrc(l: Line) {
    l.kind == SRC || l.kind == BOTH
  }

  predicate IsDst(l: Line) {
    l.kind == DST || l.kind == BOTH
  }

  function SrcLen(lines: seq<Line>): nat {
    if lines == [] then 0 else SrcLen(lines[..|lines| - 1]) + if IsSrc(lines[|lines| - 1]) then 1 else 0
  }

  function DstLen(lines: seq<Line>): nat {
    if lines == [] then 0 else DstLen(lines[..|lines| - 1]) + if IsDst(lines[|lines| - 1]) then 1 else 0
  }

  function WriteNumberPair(a: nat, b: nat, rest: string): string {
    Decimal(a) + ("," + (Decimal(b) + rest))
  }

  function WriteHeader(c: Chunk): string {
    "@@ -" + WriteNumberPair(c.srcPos, SrcLen(c.lines), " +" + WriteNumberPair(c.dstPos, DstLen(c.lines), " @@\n"))
  }

  function WriteLines(lines: seq<Line>): seq<string> {
    if lines == [] then [] else WriteLines(lines[..|lines| - 1]) + [WriteLine(lines[|lines| - 1])]
  }

  function WriteChunk(c: Chunk): seq<string> {
    [WriteHeader(c)] + WriteLines(c.lines)
  }

  function WriteChunks(chunks: seq<Chunk>): seq<string> {
    if chunks == [] then [] else WriteChunks(chunks[..|chunks| - 1]) + WriteChunk(chunks[|chunks| - 1])
  }

  function WritePatch(p: PatchV): seq<string> {
    ["--- " + p.src + "\n", "+++ " + p.dst + "\n"] + WriteChunks(p.chunks)
  }

  function WriteAll(ps: seq<PatchV>): seq<string> {
    if ps == [] then [] else WriteAll(ps[..|ps| - 1]) + WritePatch(ps[|ps| - 1])
  }
}
