/** The Gray code of bindings/python/rad_util.py. */
module GrayCode {
  import opened BinaryStrings

  /** Exclusive or of two numbers that are not negative, bit by bit. */
  function Xor(a: nat, b: nat): nat {
    if a == 0 && b == 0 then 0 else
      2 * Xor(a / 2, b / 2) + if a % 2 == b % 2 then 0 else 1
  }

  /** i ^ (i >> 1) */
  function GrayEncode(i: nat): nat {
    Xor(i, i / 2)
  }

  function OnesIn(n: nat): nat {
    if n == 0 then 0 else OnesIn(n / 2) + n % 2
  }

  lemma GrayStep(i: nat)
    ensures GrayEncode(i) / 2 == GrayEncode(i / 2)
    ensures GrayEncode(i) % 2 == if i % 2 == (i / 2) % 2 then 0 else 1
  {
    if i == 0 {
      assert Xor(0, 0) == 0;
    } else {
      assert Xor(i, i / 2) == 2 * Xor(i / 2, i / 2 / 2) + if i % 2 == (i / 2) % 2 then 0 else 1;
    }
  }

  lemma {:induction false} GrayInjective(i: nat, j: nat)
    requires GrayEncode(i) == GrayEncode(j)
    ensures i == j
    decreases i + j
  {
    GrayStep(i);
    GrayStep(j);
    if i == 0 && j == 0 {
    } else {
      GrayInjective(i / 2, j / 2);
      assert i / 2 == j / 2 && i % 2 == j % 2;
    }
  }

  lemma {:induction false} GrayKeepsWidth(i: nat, n: nat)
    ensures i < Pow2(n) <==> GrayEncode(i) < Pow2(n)
    decreases n
  {
    if n == 0 {
      GrayPositive(i);
    } else {
      GrayStep(i);
      GrayKeepsWidth(i / 2, n - 1);
    }
  }

  lemma {:induction false} GrayPositive(i: nat)
    ensures i == 0 <==> GrayEncode(i) == 0
    decreases i
  {
    GrayStep(i);
    if i > 1 {
      GrayPositive(i / 2);
    }
  }

  /** Every number is the code of some number; with GrayKeepsWidth, codes of n bits are met by numbers of n bits. */
  lemma {:induction false} GraySurjective(g: nat) returns (i: nat)
    ensures GrayEncode(i) == g
    decreases g
  {
    if g == 0 {
      i := 0;
      GrayStep(0);
    } else {
      var h := GraySurjective(g / 2);
      i := 2 * h + if g % 2 == h % 2 then 0 else 1;
      GrayStep(i);
    }
  }

  /** On the numbers below 2^n the code is a permutation. */
  lemma GrayPermutes(n: nat, g: nat)
    requires g < Pow2(n)
    ensures exists i: nat :: i < Pow2(n) && GrayEncode(i) == g && forall j: nat :: GrayEncode(j) == g ==> j == i
  {
    var i := GraySurjective(g);
    GrayKeepsWidth(i, n);
    forall j: nat | GrayEncode(j) == g ensures j == i {
      GrayInjective(i, j);
    }
  }

  lemma {:induction false} XorStep(a: nat, b: nat)
    ensures Xor(a, b) / 2 == Xor(a / 2, b / 2)
    ensures Xor(a, b) % 2 == if a % 2 == b % 2 then 0 else 1
  {
  }

  /** A bit of the exclusive or is set exactly where the bits of the two numbers differ. */
  lemma {:induction false} XorAt(a: nat, b: nat, j: nat)
    ensures BitOf(Xor(a, b), j) == if BitOf(a, j) == BitOf(b, j) then 0 else 1
    decreases j
  {
    XorStep(a, b);
    if j == 0 {
      assert Pow2(0) == 1;
    } else {
      XorAt(a / 2, b / 2, j - 1);
      HalfFirst(a, Pow2(j - 1));
      HalfFirst(b, Pow2(j - 1));
      HalfFirst(Xor(a, b), Pow2(j - 1));
    }
  }

  /** Bit j of the code tells whether bits j and j + 1 of the number differ. */
  lemma GrayAt(i: nat, j: nat)
    ensures BitOf(GrayEncode(i), j) == if BitOf(i, j) == BitOf(i, j + 1) then 0 else 1
  {
    XorAt(i, i / 2, j);
    HalfFirst(i, Pow2(j));
  }

  lemma {:induction false} XorSelf(a: nat)
    ensures Xor(a, a) == 0
    decreases a
  {
    if a > 0 {
      XorSelf(a / 2);
    }
  }

  /** The codes of neighbours differ in exactly one bit. */
  lemma {:induction false} GrayNeighbours(i: nat)
    ensures OnesIn(Xor(GrayEncode(i), GrayEncode(i + 1))) == 1
    decreases i
  {
    var a, b := GrayEncode(i), GrayEncode(i + 1);
    GrayStep(i);
    GrayStep(i + 1);
    XorStep(a, b);
    var x := Xor(a, b);
    if i % 2 == 0 {
      assert (i + 1) / 2 == i / 2;
      XorSelf(a / 2);
      assert x == 1;
      assert OnesIn(1) == OnesIn(0) + 1;
    } else {
      assert (i + 1) / 2 == i / 2 + 1;
      GrayNeighbours(i / 2);
      assert x % 2 == 0 && x == 2 * Xor(a / 2, b / 2);
      assert x > 0;
    }
  }
}
