/** Regrouping concatenations. */
module Sequences {

  lemma Regroup<T>(a: seq<T>, b: seq<T>, c: seq<T>)
    ensures a + b + c == a + (b + c)
  {
  }

  lemma RegroupFour<T>(a: seq<T>, b: seq<T>, c: seq<T>, d: seq<T>)
    ensures a + b + c + d == a + (b + c + d)
  {
  }

  lemma AppendNothing<T>(a: seq<T>)
    ensures a + [] == a
  {
  }

  lemma RegroupFive<T>(o: seq<T>, x: seq<T>, a: seq<T>, b: seq<T>, c: seq<T>)
    ensures o + x + a + b + c == o + (x + (a + b + c))
  {
  }
}
