/** Binary strings of bindings/python/rad_util.py: counting by ripple carry, and conversion through hexadecimal. */
module BinaryStrings {

  function Pow2(n: nat): (p: nat)
    ensures p > 0
  {
    if n == 0 then 1 else 2 * Pow2(n - 1)
  }

  predicate IsBits(s: string) {
    forall i :: 0 <= i < |s| ==> s[i] == '0' || s[i] == '1'
  }

  function Bit(c: char): nat {
    if c == '1' then 1 else 0
  }

  function BitChar(b: nat): char {
    if b == 0 then '0' else '1'
  }

  /** int(s, 2): the most significant bit comes first. */
  function BinToInt(s: string): nat {
    if s == "" then 0 else 2 * BinToInt(s[..|s| - 1]) + Bit(s[|s| - 1])
  }

  /** The n lowest bits of k, most significant first. */
  function Bits(k: nat, n: nat): (s: string)
    ensures |s| == n && IsBits(s)
  {
    if n == 0 then "" else Bits(k / 2, n - 1) + [BitChar(k % 2)]
  }

  lemma {:induction false} BitsReadBack(k: nat, n: nat)
    requires k < Pow2(n)
    ensures BinToInt(Bits(k, n)) == k
    decreases n
  {
    if n > 0 {
      BitsReadBack(k / 2, n - 1);
      assert Bits(k, n)[..n - 1] == Bits(k / 2, n - 1);
    }
  }

  /** Bit j of a number, the lowest being bit 0. */
  function BitOf(k: nat, j: nat): nat {
    k / Pow2(j) % 2
  }

  lemma HalfFirst(k: nat, p: nat)
    requires p >= 1
    ensures k / (2 * p) == k / 2 / p
  {
    var q := k / 2 / p;
    var r := k / 2 - q * p;
    assert 0 <= r < p;
    assert k == q * (2 * p) + (2 * r + k % 2) by {
      assert 2 * (q * p) == q * (2 * p);
    }
    DividedBy(q, 2 * p, 2 * r + k % 2);
  }

  lemma DividedBy(q: nat, m: nat, r: nat)
    requires r < m
    ensures (q * m + r) / m == q
  {
    var x := q * m + r;
    assert x == x / m * m + x % m;
    assert (x / m - q) * m == r - x % m by {
      assert (x / m - q) * m == x / m * m - q * m;
    }
    if x / m != q {
      NonzeroMultiple(x / m - q, m);
    }
  }

  lemma NonzeroMultiple(d: int, m: int)
    requires d != 0 && m > 0
    ensures d * m >= m || d * m <= -m
  {
    if d >= 1 {
      assert (d - 1) * m >= 0;
    } else {
      assert (-1 - d) * m >= 0;
    }
  }

  /** The digits are the bits, the highest first. */
  lemma {:induction false} BitsAt(k: nat, n: nat, j: nat)
    requires j < n
    ensures Bits(k, n)[j] == BitChar(BitOf(k, n - 1 - j))
    decreases n
  {
    if j < n - 1 {
      BitsAt(k / 2, n - 1, j);
      HalfFirst(k, Pow2(n - 2 - j));
    } else {
      assert Pow2(0) == 1;
    }
  }

  lemma {:induction false} BinToIntBound(s: string)
    ensures BinToInt(s) < Pow2(|s|)
    decreases |s|
  {
    if s != "" {
      BinToIntBound(s[..|s| - 1]);
    }
  }

  /** A string of bits is determined by its length and value. */
  lemma {:induction false} BitsOfValue(s: string)
    requires IsBits(s)
    ensures Bits(BinToInt(s), |s|) == s
    decreases |s|
  {
    if s != "" {
      var n := |s| - 1;
      BitsOfValue(s[..n]);
      assert BinToInt(s) / 2 == BinToInt(s[..n]) && BinToInt(s) % 2 == Bit(s[n]);
      assert s == s[..n] + [s[n]];
    }
  }

  // ---------------------------------------------------------------- binary_range

  /** The value of a list of digits whose least significant digit comes first. */
  function Value(v: string): nat {
    if v == "" then 0 else Value(v[..|v| - 1]) + Bit(v[|v| - 1]) * Pow2(|v| - 1)
  }

  function Reversed(v: string): string {
    if v == "" then "" else [v[|v| - 1]] + Reversed(v[..|v| - 1])
  }

  lemma {:induction false} PrependBit(c: char, s: string)
    ensures BinToInt([c] + s) == Bit(c) * Pow2(|s|) + BinToInt(s)
    decreases |s|
  {
    if s == "" {
      assert ([c] + s)[..0] == "";
    } else {
      var n := |s| - 1;
      PrependBit(c, s[..n]);
      assert ([c] + s)[..|s|] == [c] + s[..n];
    }
  }

  lemma {:induction false} ReversedValue(v: string)
    requires IsBits(v)
    ensures |Reversed(v)| == |v| && IsBits(Reversed(v)) && BinToInt(Reversed(v)) == Value(v)
    decreases |v|
  {
    if v != "" {
      var n := |v| - 1;
      ReversedValue(v[..n]);
      PrependBit(v[n], Reversed(v[..n]));
    }
  }

  /** Setting digit i changes the value by 2^i. */
  lemma {:induction false} ValueUpdate(v: string, i: nat, c: char)
    requires i < |v|
    ensures Value(v[i := c]) + Bit(v[i]) * Pow2(i) == Value(v) + Bit(c) * Pow2(i)
    decreases |v|
  {
    var n := |v| - 1;
    if i < n {
      ValueUpdate(v[..n], i, c);
      assert v[i := c][..n] == v[..n][i := c];
    } else {
      assert v[i := c][..n] == v[..n];
    }
  }

  lemma {:induction false} ValueBound(v: string)
    ensures Value(v) < Pow2(|v|)
    decreases |v|
  {
    if v != "" {
      ValueBound(v[..|v| - 1]);
    }
  }

  lemma {:induction false} ZeroValue(v: string)
    requires forall i :: 0 <= i < |v| ==> v[i] == '0'
    ensures Value(v) == 0
    decreases |v|
  {
    if v != "" {
      ZeroValue(v[..|v| - 1]);
    }
  }

  /** Flipping digit i adds 2^i, or carries it to the next digit. */
  lemma FlipDigit(v: string, i: nat, c: char)
    requires i < |v| && IsBits(v) && c == if v[i] == '0' then '1' else '0'
    ensures IsBits(v[i := c])
    ensures Value(v[i := c]) + (if v[i] == '0' then 0 else Pow2(i + 1)) == Value(v) + Pow2(i)
  {
    ValueUpdate(v, i, c);
  }

  /** Adds one, carrying from the lowest digit up; `toggle[i]` says whether digit i is to be flipped. */
  method Increment(v0: string, bits: nat) returns (v: string, toggle: seq<nat>)
    requires |v0| == bits && IsBits(v0)
    ensures |v| == bits && IsBits(v) && |toggle| == bits + 1
    ensures toggle[bits] == 1 ==> Value(v0) + 1 == Pow2(bits) && Value(v) == 0
    ensures toggle[bits] != 1 ==> Value(v) == Value(v0) + 1
  {
    v := v0;
    toggle := [1] + seq(bits, i => 0);
    var i := 0;
    while i < bits && toggle[i] == 1
      invariant i <= bits && |toggle| == bits + 1 && |v| == bits && IsBits(v)
      invariant toggle[i] == 0 || toggle[i] == 1
      invariant forall j :: i < j <= bits ==> toggle[j] == 0
      invariant Value(v) + (if toggle[i] == 1 then Pow2(i) else 0) == Value(v0) + 1
    {
      FlipDigit(v, i, if v[i] == '0' then '1' else '0');
      if v[i] == '0' {
        v := v[i := '1'];
        toggle := toggle[i + 1 := 0];
      } else {
        v := v[i := '0'];
        toggle := toggle[i + 1 := 1];
      }
      i := i + 1;
    }
    ValueBound(v0);
  }

  predicate InOrder(l: seq<string>, bits: nat) {
    forall k :: 0 <= k < |l| ==> l[k] == Bits(k, bits)
  }

  lemma NextInOrder(l: seq<string>, v: string, bits: nat)
    requires InOrder(l, bits) && IsBits(v) && |v| == bits && Value(v) == |l|
    ensures InOrder(l + [Reversed(v)], bits)
  {
    ReversedValue(v);
    BitsOfValue(Reversed(v));
    InOrderAppend(l, Reversed(v), bits);
  }

  lemma InOrderAppend(l: seq<string>, s: string, bits: nat)
    requires InOrder(l, bits) && s == Bits(|l|, bits)
    ensures InOrder(l + [s], bits)
  {
  }

  /** All binary numbers of the given width in order; of width zero, none. */
  method BinaryRange(bits: nat) returns (l: seq<string>)
    ensures bits >= 1 ==> |l| == Pow2(bits)
    ensures bits == 0 ==> l == []
    ensures forall k :: 0 <= k < |l| ==> l[k] == Bits(k, bits)
    ensures forall k :: 0 <= k < |l| ==> Int2Bin(k, bits) == Converted(l[k])
  {
    l := [];
    var v := seq(bits, i => '0');
    var toggle := [1] + seq(bits, i => 0);
    ZeroValue(v);
    while toggle[bits] != 1
      invariant |v| == bits && IsBits(v) && |toggle| == bits + 1
      invariant toggle[bits] != 1 ==> Value(v) == |l| < Pow2(bits)
      invariant toggle[bits] == 1 ==> |l| == if bits == 0 then 0 else Pow2(bits)
      invariant InOrder(l, bits)
      decreases toggle[bits] != 1, Pow2(bits) - |l|
    {
      NextInOrder(l, v, bits);
      l := l + [Reversed(v)];
      v, toggle := Increment(v, bits);
      ValueBound(v);
    }
    forall k | 0 <= k < |l| ensures Int2Bin(k, bits) == Converted(l[k]) {
      Int2BinIsBits(k, bits);
    }
  }

  // ---------------------------------------------------------------- int2bin

  datatype Conversion = Converted(s: string) | ValueError

  function HexDigit(d: nat): char
    requires d < 16
  {
    if d < 10 then '0' + d as char else 'a' + (d - 10) as char
  }

  /** hex(i) without its prefix. */
  function Hex(i: nat): string {
    if i < 16 then [HexDigit(i)] else Hex(i / 16) + [HexDigit(i % 16)]
  }

  /** The table from hexadecimal digits to four bits each. */
  function HexToBin(c: char): string {
    match c
    case '0' => "0000" case '1' => "0001" case '2' => "0010" case '3' => "0011"
    case '4' => "0100" case '5' => "0101" case '6' => "0110" case '7' => "0111"
    case '8' => "1000" case '9' => "1001" case 'a' => "1010" case 'b' => "1011"
    case 'c' => "1100" case 'd' => "1101" case 'e' => "1110" case 'f' => "1111"
    case _ => ""
  }

  function Expand(hex: string): string {
    if hex == "" then "" else Expand(hex[..|hex| - 1]) + HexToBin(hex[|hex| - 1])
  }

  /** Python's s[:-n] and s[-n:]. */
  function AllButLast(s: string, n: nat): string {
    if n == 0 || n >= |s| then "" else s[..|s| - n]
  }

  function LastOf(s: string, n: nat): string {
    if n == 0 || n >= |s| then s else s[|s| - n..]
  }

  function Zeros(n: int): string {
    if n <= 0 then "" else seq(n, i => '0')
  }

  /** Cut or padded to n digits; an error when a one would be cut off. */
  function FitTo(result: string, n: nat): Conversion {
    if '1' in AllButLast(result, n) then ValueError
    else
      var kept := LastOf(result, n);
      Converted(Zeros(n - |kept|) + kept)
  }

  /** The number as n bits, by way of its hexadecimal digits. */
  function Int2Bin(i: nat, n: nat): Conversion {
    FitTo(Expand(Hex(i)), n)
  }

  function FourBitValue(q: string): nat
    requires |q| == 4
  {
    8 * Bit(q[0]) + 4 * Bit(q[1]) + 2 * Bit(q[2]) + Bit(q[3])
  }

  lemma NibbleValue(d: nat)
    requires d < 16
    ensures |HexToBin(HexDigit(d))| == 4 && IsBits(HexToBin(HexDigit(d))) && FourBitValue(HexToBin(HexDigit(d))) == d
  {
    if d < 4 {
      assert d == 0 || d == 1 || d == 2 || d == 3;
    } else if d < 8 {
      assert d == 4 || d == 5 || d == 6 || d == 7;
    } else if d < 12 {
      assert d == 8 || d == 9 || d == 10 || d == 11;
    } else {
      assert d == 12 || d == 13 || d == 14 || d == 15;
    }
  }

  lemma AppendBit(s: string, c: char)
    ensures BinToInt(s + [c]) == 2 * BinToInt(s) + Bit(c)
  {
    assert (s + [c])[..|s|] == s;
  }

  lemma AppendFourBits(s: string, q: string)
    requires |q| == 4
    ensures BinToInt(s + q) == 16 * BinToInt(s) + FourBitValue(q)
  {
    AppendBit(s, q[0]);
    AppendBit(s + [q[0]], q[1]);
    AppendBit(s + [q[0]] + [q[1]], q[2]);
    AppendBit(s + [q[0]] + [q[1]] + [q[2]], q[3]);
    assert s + q == s + [q[0]] + [q[1]] + [q[2]] + [q[3]];
  }

  lemma ExpandAppend(hex: string, c: char)
    ensures Expand(hex + [c]) == Expand(hex) + HexToBin(c)
  {
    assert (hex + [c])[..|hex|] == hex;
  }

  lemma IsBitsAppend(a: string, b: string)
    requires IsBits(a) && IsBits(b)
    ensures IsBits(a + b)
  {
  }

  lemma {:induction false} ExpandedHexValue(i: nat)
    ensures IsBits(Expand(Hex(i))) && BinToInt(Expand(Hex(i))) == i
    decreases i
  {
    var rest, q := if i < 16 then "" else Hex(i / 16), HexToBin(HexDigit(i % 16));
    NibbleValue(i % 16);
    if i >= 16 {
      ExpandedHexValue(i / 16);
    } else {
      assert rest + [HexDigit(i % 16)] == Hex(i);
    }
    ExpandAppend(rest, HexDigit(i % 16));
    AppendFourBits(Expand(rest), q);
    IsBitsAppend(Expand(rest), q);
  }

  lemma {:induction false} ConcatValue(a: string, b: string)
    ensures BinToInt(a + b) == BinToInt(a) * Pow2(|b|) + BinToInt(b)
    decreases |b|
  {
    if b == "" {
      assert a + b == a;
    } else {
      var n := |b| - 1;
      ConcatValue(a, b[..n]);
      assert (a + b)[..|a + b| - 1] == a + b[..n] && (a + b)[|a + b| - 1] == b[n];
      Doubled(BinToInt(a), Pow2(n));
    }
  }

  lemma Doubled(x: nat, p: nat)
    ensures 2 * (x * p) == x * (2 * p)
  {
  }

  lemma {:induction false} ZeroIffNoOne(s: string)
    requires IsBits(s)
    ensures BinToInt(s) == 0 <==> '1' !in s
    decreases |s|
  {
    if s != "" {
      var n := |s| - 1;
      ZeroIffNoOne(s[..n]);
      assert s == s[..n] + [s[n]];
    }
  }

  lemma AtLeastOnce(x: nat, p: nat)
    requires x >= 1
    ensures x * p >= p
  {
  }

  lemma SplitValue(a: string, b: string)
    requires IsBits(a)
    ensures '1' in a <==> BinToInt(a + b) >= Pow2(|b|)
    ensures '1' !in a ==> BinToInt(a + b) == BinToInt(b)
  {
    ConcatValue(a, b);
    ZeroIffNoOne(a);
    BinToIntBound(b);
    if '1' in a {
      AtLeastOnce(BinToInt(a), Pow2(|b|));
    }
  }

  /** Cutting to the last n bits loses value exactly when the number needs more than n. */
  lemma CutLosesIffTooLarge(s: string, n: nat)
    requires IsBits(s) && n >= 1
    ensures '1' in AllButLast(s, n) <==> BinToInt(s) >= Pow2(n)
    ensures '1' !in AllButLast(s, n) ==> BinToInt(LastOf(s, n)) == BinToInt(s)
    ensures |LastOf(s, n)| <= n && IsBits(LastOf(s, n))
  {
    if n >= |s| {
      BinToIntBound(s);
      Pow2Monotone(|s|, n);
    } else {
      var k := |s| - n;
      SplitValue(s[..k], s[k..]);
      assert s == s[..k] + s[k..];
    }
  }

  lemma {:induction false} Pow2Monotone(m: nat, n: nat)
    requires m <= n
    ensures Pow2(m) <= Pow2(n)
    decreases n
  {
    if m < n {
      Pow2Monotone(m, n - 1);
    }
  }

  lemma {:induction false} PaddedValue(k: nat, s: string)
    ensures BinToInt(Zeros(k) + s) == BinToInt(s)
    decreases k
  {
    if k == 0 {
      assert Zeros(k) + s == s;
    } else {
      PaddedValue(k - 1, s);
      assert Zeros(k) + s == ['0'] + (Zeros(k - 1) + s);
      PrependBit('0', Zeros(k - 1) + s);
    }
  }

  lemma PaddedBits(kept: string, n: nat, i: nat)
    requires IsBits(kept) && |kept| <= n && BinToInt(kept) == i
    ensures Zeros(n - |kept|) + kept == Bits(i, n)
  {
    var k := n - |kept|;
    PaddedValue(k, kept);
    IsBitsAppend(Zeros(k), kept);
    BitsOfValue(Zeros(k) + kept);
  }

  lemma FitToIsBits(result: string, n: nat)
    requires n >= 1 && IsBits(result)
    ensures var i := BinToInt(result);
      FitTo(result, n) == if i >= Pow2(n) then ValueError else Converted(Bits(i, n))
  {
    CutLosesIffTooLarge(result, n);
    if BinToInt(result) < Pow2(n) {
      PaddedBits(LastOf(result, n), n, BinToInt(result));
    }
  }

  /** For n >= 1: a value error exactly when the number does not fit n bits, and otherwise its n bits,
      from which int(s, 2) gives the number back. */
  lemma Int2BinIsBits(i: nat, n: nat)
    requires n >= 1
    ensures Int2Bin(i, n) == if i >= Pow2(n) then ValueError else Converted(Bits(i, n))
    ensures Int2Bin(i, n).Converted? ==> |Int2Bin(i, n).s| == n && BinToInt(Int2Bin(i, n).s) == i
  {
    ExpandedHexValue(i);
    FitToIsBits(Expand(Hex(i)), n);
    if i < Pow2(n) {
      BitsReadBack(i, n);
    }
  }

  /** Of width zero nothing is ever refused or cut. */
  lemma WidthZeroNeverFails(i: nat)
    ensures Int2Bin(i, 0) == Converted(Expand(Hex(i))) && |Int2Bin(i, 0).s| >= 4
  {
    var rest := if i < 16 then "" else Hex(i / 16);
    NibbleValue(i % 16);
    ExpandAppend(rest, HexDigit(i % 16));
    assert Hex(i) == rest + [HexDigit(i % 16)];
    assert Zeros(0 - |Expand(Hex(i))|) + Expand(Hex(i)) == Expand(Hex(i));
  }

  /** The promise, an error or exactly n bits, is kept for each number if and only if the width is positive. */
  lemma PromiseIffPositiveWidth(i: nat, n: nat)
    ensures Int2Bin(i, n) == (if i >= Pow2(n) then ValueError else Converted(Bits(i, n))) <==> n >= 1
  {
    if n >= 1 {
      Int2BinIsBits(i, n);
    } else {
      WidthZeroNeverFails(i);
    }
  }
}
