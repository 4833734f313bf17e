/** What the reader of utils/check-style.py makes of a line, told from the characters of the line. */
module PatchLines {
  import opened Options
  import opened PatchText
  import Sequences

  /** The line is a prefix and a text; a final newline may follow. */
  predicate Spells(line: string, prefix: string, text: string) {
    NewlineFree(text) && (line == prefix + text || line == prefix + text + "\n")
  }

  lemma RestIff(s: string, text: string)
    ensures RestOfLine(s) == Some(text) <==> Spells(s, "", text)
  {
    assert "" + text == text;
    if !NewlineFree(s) && NewlineFree(s[..|s| - 1]) {
      assert s == s[..|s| - 1] + "\n";
    }
    if s == text + "\n" {
      assert s[|text|] == '\n' && s[..|s| - 1] == text;
    }
  }

  /** What follows a prefix is read exactly when nothing but a final newline is missing from it. */
  lemma AfterIff(line: string, prefix: string, text: string)
    ensures After(line, prefix) == Some(text) <==> Spells(line, prefix, text)
  {
    if prefix <= line {
      var s := line[|prefix|..];
      assert line == prefix + s;
      RestIff(s, text);
      assert "" + text == text;
      Sequences.Regroup(prefix, text, "\n");
      SamePrefix(prefix, s, text);
      SamePrefix(prefix, s, text + "\n");
    } else {
      Sequences.Regroup(prefix, text, "\n");
      assert prefix <= prefix + text && prefix <= prefix + (text + "\n");
    }
  }

  lemma SamePrefix(prefix: string, s: string, t: string)
    ensures prefix + s == prefix + t <==> s == t
  {
    assert (prefix + s)[|prefix|..] == s && (prefix + t)[|prefix|..] == t;
  }

  // ---------------------------------------------------------------- numbers

  function PowerOfTen(n: nat): nat {
    if n == 0 then 1 else 10 * PowerOfTen(n - 1)
  }

  /** Digits are worth the more the further left they stand. */
  lemma {:induction false} NumberOfAppend(s: string, t: string)
    requires forall i :: 0 <= i < |s| ==> IsDigit(s[i])
    requires forall i :: 0 <= i < |t| ==> IsDigit(t[i])
    ensures NumberOf(s + t) == NumberOf(s) * PowerOfTen(|t|) + NumberOf(t)
    ensures |t| == 1 ==> NumberOf(t) == (t[0] - '0') as int
    decreases |t|
  {
    if t == "" {
      assert s + t == s;
    } else {
      var n := |t| - 1;
      NumberOfAppend(s, t[..n]);
      assert (s + t)[..|s| + n] == s + t[..n];
      TenTimes(NumberOf(s), PowerOfTen(n), NumberOf(t[..n]));
    }
  }

  lemma TenTimes(a: nat, p: nat, b: nat)
    ensures 10 * (a * p + b) == a * (10 * p) + 10 * b
  {
  }

  /** A nonempty run of digits and the number it spells. */
  predicate Digits(s: string, n: nat) {
    s != "" && (forall i :: 0 <= i < |s| ==> IsDigit(s[i])) && NumberOf(s) == n
  }

  predicate NoDigitFirst(rest: string) {
    rest != "" ==> !IsDigit(rest[0])
  }

  lemma NumberRead(s: string, n: nat, rest: string)
    requires Digits(s, n) && NoDigitFirst(rest)
    ensures Number(s + rest) == Some((n, rest))
  {
    DigitsLengthIs(s, rest);
    assert (s + rest)[..|s|] == s && (s + rest)[|s|..] == rest;
  }

  lemma NumberSplit(s: string) returns (digits: string)
    requires Number(s).Some?
    ensures Digits(digits, Number(s).value.0) && s == digits + Number(s).value.1
  {
    digits := s[..DigitsLength(s)];
  }

  lemma DropWritten(prefix: string, rest: string)
    ensures Drop(prefix + rest, prefix) == Some(rest)
  {
    assert (prefix + rest)[|prefix|..] == rest;
  }

  lemma NumberPairRead(x: string, a: nat, y: string, b: nat, rest: string)
    requires Digits(x, a) && Digits(y, b) && NoDigitFirst(rest)
    ensures NumberPair(x + ("," + (y + rest))) == Some((a, b, rest))
  {
    NumberRead(x, a, "," + (y + rest));
    DropWritten(",", y + rest);
    NumberRead(y, b, rest);
  }

  lemma NumberPairSplit(s: string) returns (x: string, y: string)
    requires NumberPair(s).Some?
    ensures Digits(x, NumberPair(s).value.0) && Digits(y, NumberPair(s).value.1)
    ensures s == x + ("," + (y + NumberPair(s).value.2))
  {
    x := NumberSplit(s);
    var s1 := Number(s).value.1;
    var s2 := Drop(s1, ",").value;
    assert s1 == "," + s2;
    y := NumberSplit(s2);
  }

  // ---------------------------------------------------------------- chunk headers

  /** Two pairs of numbers between the signs of a chunk header; anything may follow. */
  predicate HeaderOf(line: string, x: string, y: string, z: string, w: string, rest: string) {
    line == "@@ -" + (x + ("," + (y + (" +" + (z + ("," + (w + (" @@" + rest))))))))
  }

  ghost predicate IsHeader(line: string, a: nat, b: nat, c: nat, d: nat) {
    exists x, y, z, w, rest ::
      HeaderOf(line, x, y, z, w, rest) && Digits(x, a) && Digits(y, b) && Digits(z, c) && Digits(w, d)
  }

  lemma HeaderRead(line: string, a: nat, b: nat, c: nat, d: nat)
    requires IsHeader(line, a, b, c, d)
    ensures ChunkHeader(line) == Some((a, b, c, d))
  {
    var x, y, z, w, rest :|
      HeaderOf(line, x, y, z, w, rest) && Digits(x, a) && Digits(y, b) && Digits(z, c) && Digits(w, d);
    var second := z + ("," + (w + (" @@" + rest)));
    var s := x + ("," + (y + (" +" + second)));
    DropWritten("@@ -", s);
    NumberPairRead(x, a, y, b, " +" + second);
    DropWritten(" +", second);
    NumberPairRead(z, c, w, d, " @@" + rest);
    HeaderRest((a, b), second, (c, d), rest);
  }

  lemma HeaderRest(first: (nat, nat), second: string, pair: (nat, nat), rest: string)
    requires NumberPair(second) == Some((pair.0, pair.1, " @@" + rest))
    ensures HeaderEnd(first, second) == Some((first.0, first.1, pair.0, pair.1))
  {
    assert " @@" <= " @@" + rest;
  }

  lemma HeaderEndSplit(first: (nat, nat), s: string) returns (z: string, w: string, rest: string)
    requires HeaderEnd(first, s).Some?
    ensures var h := HeaderEnd(first, s).value; h.0 == first.0 && h.1 == first.1 && Digits(z, h.2) && Digits(w, h.3)
    ensures s == z + ("," + (w + (" @@" + rest)))
  {
    z, w := NumberPairSplit(s);
    var end := NumberPair(s).value.2;
    rest := end[3..];
    assert end == " @@" + rest;
  }

  lemma HeaderMiddleSplit(s: string) returns (x: string, y: string, second: string)
    requires HeaderMiddle(s).Some?
    ensures var h := HeaderMiddle(s).value;
      Digits(x, h.0) && Digits(y, h.1) && HeaderEnd((h.0, h.1), second) == Some(h)
    ensures s == x + ("," + (y + (" +" + second)))
  {
    x, y := NumberPairSplit(s);
    var tail := NumberPair(s).value.2;
    second := Drop(tail, " +").value;
    assert tail == " +" + second;
  }

  lemma HeaderSplit(line: string)
    requires ChunkHeader(line).Some?
    ensures var h := ChunkHeader(line).value; IsHeader(line, h.0, h.1, h.2, h.3)
  {
    var h, s := ChunkHeader(line).value, Drop(line, "@@ -").value;
    assert line == "@@ -" + s;
    var x, y, second := HeaderMiddleSplit(s);
    var z, w, rest := HeaderEndSplit((h.0, h.1), second);
    assert HeaderOf(line, x, y, z, w, rest);
  }

  /** A chunk header is read exactly when the line is one, with its four numbers. */
  lemma HeaderIff(line: string, a: nat, b: nat, c: nat, d: nat)
    ensures ChunkHeader(line) == Some((a, b, c, d)) <==> IsHeader(line, a, b, c, d)
  {
    if IsHeader(line, a, b, c, d) {
      HeaderRead(line, a, b, c, d);
    }
    if ChunkHeader(line).Some? {
      HeaderSplit(line);
    }
  }

  // ---------------------------------------------------------------- every line

  ghost predicate StartsChunk(line: string, a: nat, c: nat) {
    exists b: nat, d: nat :: IsHeader(line, a, b, c, d)
  }

  lemma FirstChar(line: string, prefix: string)
    requires prefix != "" && After(line, prefix).Some?
    ensures line != "" && line[0] == prefix[0]
  {
  }

  lemma SpellsFirst(line: string, prefix: string, text: string)
    requires prefix != "" && Spells(line, prefix, text)
    ensures line != "" && line[0] == prefix[0]
  {
  }

  lemma HeaderFirst(line: string)
    requires ChunkHeader(line).Some?
    ensures line != "" && line[0] == '@'
  {
  }

  lemma FileIff(line: string, name: string)
    ensures Classify(line) == SrcFile(name) <==> Spells(line, "--- ", name)
    ensures Classify(line) == DstFile(name) <==> Spells(line, "+++ ", name)
  {
    AfterIff(line, "--- ", name);
    AfterIff(line, "+++ ", name);
    if After(line, "--- ").Some? {
      FirstChar(line, "--- ");
    }
    if After(line, "+++ ").Some? {
      FirstChar(line, "+++ ");
    }
  }

  lemma HeaderStarts(line: string)
    requires ChunkHeader(line).Some?
    ensures Classify(line) == ChunkStart(ChunkHeader(line).value.0, ChunkHeader(line).value.2)
  {
    HeaderFirst(line);
    if After(line, "--- ").Some? {
      FirstChar(line, "--- ");
    }
    if After(line, "+++ ").Some? {
      FirstChar(line, "+++ ");
    }
  }

  lemma ChunkStartIff(line: string, a: nat, c: nat)
    ensures Classify(line) == ChunkStart(a, c) <==> StartsChunk(line, a, c)
  {
    if StartsChunk(line, a, c) {
      var b: nat, d: nat :| IsHeader(line, a, b, c, d);
      HeaderRead(line, a, b, c, d);
      HeaderStarts(line);
    }
    if ChunkHeader(line).Some? {
      HeaderSplit(line);
    }
  }

  /** A longer prefix is what the text itself begins with. */
  lemma LongerPrefix(line: string, sign: string, tail: string, text: string)
    requires Spells(line, sign, text) && NewlineFree(tail)
    ensures After(line, sign + tail).Some? <==> tail <= text
  {
    if tail <= text {
      var name := text[|tail|..];
      assert text == tail + name;
      Sequences.Regroup(sign, tail, name);
      AfterIff(line, sign + tail, name);
    }
    if After(line, sign + tail).Some? {
      var name := After(line, sign + tail).value;
      AfterIff(line, sign + tail, name);
      AfterIff(line, sign, tail + name);
      AfterIff(line, sign, text);
      Sequences.Regroup(sign, tail, name);
      assert NewlineFree(tail + name);
      assert text == tail + name;
    }
  }

  lemma SrcLineIff(line: string, text: string)
    ensures Classify(line) == Body(Line(SRC, text)) <==> Spells(line, "-", text) && !("-- " <= text)
  {
    AfterIff(line, "-", text);
    if Spells(line, "-", text) {
      SpellsFirst(line, "-", text);
      LongerPrefix(line, "-", "-- ", text);
      assert "-" + "-- " == "--- ";
    }
  }

  lemma DstLineIff(line: string, text: string)
    ensures Classify(line) == Body(Line(DST, text)) <==> Spells(line, "+", text) && !("++ " <= text)
  {
    AfterIff(line, "+", text);
    if Spells(line, "+", text) {
      SpellsFirst(line, "+", text);
      LongerPrefix(line, "+", "++ ", text);
      assert "+" + "++ " == "+++ ";
    }
  }

  lemma BothLineIff(line: string, text: string)
    ensures Classify(line) == Body(Line(BOTH, text)) <==> Spells(line, " ", text)
  {
    AfterIff(line, " ", text);
    if Spells(line, " ", text) {
      SpellsFirst(line, " ", text);
    }
  }

  ghost predicate SpellsAny(line: string, prefix: string) {
    exists text :: Spells(line, prefix, text)
  }

  lemma AfterAnything(line: string, prefix: string)
    ensures After(line, prefix).Some? <==> SpellsAny(line, prefix)
  {
    if After(line, prefix).Some? {
      AfterIff(line, prefix, After(line, prefix).value);
    }
    if text :| Spells(line, prefix, text) {
      AfterIff(line, prefix, text);
    }
  }

  lemma ShorterPrefix(line: string, sign: string, tail: string)
    requires After(line, sign + tail).Some? && NewlineFree(tail)
    ensures After(line, sign).Some?
  {
    var name := After(line, sign + tail).value;
    AfterIff(line, sign + tail, name);
    Sequences.Regroup(sign, tail, name);
    AfterIff(line, sign, tail + name);
  }

  ghost predicate Unreadable(line: string) {
    && !SpellsAny(line, "-") && !SpellsAny(line, "+") && !SpellsAny(line, " ")
    && forall a: nat, c: nat :: !StartsChunk(line, a, c)
  }

  /** What each line is read as. */
  ghost predicate ReadsAs(line: string, kind: LineKind) {
    match kind
    case SrcFile(name) => Spells(line, "--- ", name)
    case DstFile(name) => Spells(line, "+++ ", name)
    case ChunkStart(a, c) => StartsChunk(line, a, c)
    case Body(Line(SRC, text)) => Spells(line, "-", text) && !("-- " <= text)
    case Body(Line(DST, text)) => Spells(line, "+", text) && !("++ " <= text)
    case Body(Line(BOTH, text)) => Spells(line, " ", text)
    case Bad => Unreadable(line)
  }

  lemma NoHeaderIff(line: string)
    ensures ChunkHeader(line).None? <==> forall a: nat, c: nat :: !StartsChunk(line, a, c)
  {
    if ChunkHeader(line).Some? {
      HeaderSplit(line);
      assert StartsChunk(line, ChunkHeader(line).value.0, ChunkHeader(line).value.2);
    }
    if a: nat, c: nat :| StartsChunk(line, a, c) {
      var b: nat, d: nat :| IsHeader(line, a, b, c, d);
      HeaderRead(line, a, b, c, d);
    }
  }

  lemma FileHeaderHasSign(line: string)
    ensures After(line, "--- ").Some? ==> After(line, "-").Some?
    ensures After(line, "+++ ").Some? ==> After(line, "+").Some?
  {
    assert "-" + "-- " == "--- " && "+" + "++ " == "+++ ";
    if After(line, "--- ").Some? {
      ShorterPrefix(line, "-", "-- ");
    }
    if After(line, "+++ ").Some? {
      ShorterPrefix(line, "+", "++ ");
    }
  }

  lemma NothingMatches(line: string)
    ensures Classify(line) == Bad <==>
      ChunkHeader(line).None? && After(line, "-").None? && After(line, "+").None? && After(line, " ").None?
  {
    FileHeaderHasSign(line);
  }

  lemma BadIff(line: string)
    ensures Classify(line) == Bad <==> Unreadable(line)
  {
    NothingMatches(line);
    AfterAnything(line, "-");
    AfterAnything(line, "+");
    AfterAnything(line, " ");
    NoHeaderIff(line);
  }

  /** The tests of the reading loop, taken together, tell lines apart by what they spell. */
  lemma ClassifyIff(line: string, kind: LineKind)
    ensures Classify(line) == kind <==> ReadsAs(line, kind)
  {
    match kind
    case SrcFile(name) => FileIff(line, name);
    case DstFile(name) => FileIff(line, name);
    case ChunkStart(a, c) => ChunkStartIff(line, a, c);
    case Body(Line(SRC, text)) => SrcLineIff(line, text);
    case Body(Line(DST, text)) => DstLineIff(line, text);
    case Body(Line(BOTH, text)) => BothLineIff(line, text);
    case Bad => BadIff(line);
  }
}
