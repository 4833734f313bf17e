/** All orders of a list: `permutations` of bindings/python/rad_util.py. */
module Permutations {
  import opened Digraph

  function Factorial(n: nat): nat {
    if n == 0 then 1 else n * Factorial(n - 1)
  }

  function Insert<T>(s: seq<T>, i: nat, x: T): seq<T>
    requires i <= |s|
  {
    s[..i] + [x] + s[i..]
  }

  /** x inserted at every position of a list. */
  function Row<T>(s: seq<T>, x: T): seq<seq<T>> {
    seq(|s| + 1, i requires 0 <= i <= |s| => Insert(s, i, x))
  }

  function Spread<T>(subs: seq<seq<T>>, x: T): seq<seq<T>> {
    if subs == [] then [] else Spread(subs[..|subs| - 1], x) + Row(subs[|subs| - 1], x)
  }

  function PermutationsOf<T>(input: seq<T>): seq<seq<T>> {
    if |input| <= 1 then [input] else Spread(PermutationsOf(input[1..]), input[0])
  }

  // ---------------------------------------------------------------- what they are

  lemma {:induction false} SpreadHas<T>(subs: seq<seq<T>>, x: T, p: seq<T>)
    ensures p in Spread(subs, x) <==>
      exists k, i :: 0 <= k < |subs| && 0 <= i <= |subs[k]| && Insert(subs[k], i, x) == p
    decreases |subs|
  {
    if subs != [] {
      var n := |subs| - 1;
      var front := subs[..n];
      SpreadHas(front, x, p);
      assert p in Spread(subs, x) <==> p in Spread(front, x) || p in Row(subs[n], x);
      if p in Spread(front, x) {
        var k, i :| 0 <= k < |front| && 0 <= i <= |front[k]| && Insert(front[k], i, x) == p;
        assert front[k] == subs[k];
      }
      if p in Row(subs[n], x) {
        var i :| 0 <= i < |Row(subs[n], x)| && Row(subs[n], x)[i] == p;
        assert Insert(subs[n], i, x) == p;
      }
      if k, i :| 0 <= k < |subs| && 0 <= i <= |subs[k]| && Insert(subs[k], i, x) == p {
        if k == n {
          assert Row(subs[n], x)[i] == p;
        } else {
          assert front[k] == subs[k];
        }
      }
    }
  }

  lemma InsertMultiset<T>(s: seq<T>, i: nat, x: T)
    requires i <= |s|
    ensures multiset(Insert(s, i, x)) == multiset(s) + multiset{x}
  {
    assert s == s[..i] + s[i..];
  }

  /** Taking one item away and inserting it again. */
  lemma RemoveThenInsert<T>(p: seq<T>, rest: seq<T>, x: T) returns (q: seq<T>, i: nat)
    requires multiset(p) == multiset([x] + rest)
    ensures i <= |q| && Insert(q, i, x) == p && multiset(q) == multiset(rest)
  {
    assert x in multiset([x] + rest);
    i :| 0 <= i < |p| && p[i] == x;
    q := p[..i] + p[i + 1..];
    assert p == Insert(q, i, x);
    InsertMultiset(q, i, x);
    var a, b, c := multiset(q), multiset(rest), multiset{x};
    assert multiset([x] + rest) == c + b;
    assert a == (a + c) - c == (c + b) - c == b;
  }

  /** Exactly the lists with the same items, each as often as in the input. */
  lemma {:induction false} PermutationsAreRearrangements<T>(input: seq<T>, p: seq<T>)
    ensures p in PermutationsOf(input) <==> multiset(p) == multiset(input)
    decreases |input|
  {
    if |input| <= 1 {
      SmallRearrangement(input, p);
    } else if p in PermutationsOf(input) {
      PermutationRearranges(input, p);
    } else if multiset(p) == multiset(input) {
      RearrangementIsListed(input, p);
    }
  }

  lemma {:induction false} PermutationRearranges<T>(input: seq<T>, p: seq<T>)
    requires p in PermutationsOf(input)
    ensures multiset(p) == multiset(input)
    decreases |input|
  {
    if |input| > 1 {
      var x, rest := input[0], input[1..];
      var subs := PermutationsOf(rest);
      SpreadHas(subs, x, p);
      var k, i :| 0 <= k < |subs| && 0 <= i <= |subs[k]| && Insert(subs[k], i, x) == p;
      assert subs[k] in subs;
      PermutationRearranges(rest, subs[k]);
      InsertMultiset(subs[k], i, x);
      assert input == [x] + rest;
    }
  }

  lemma {:induction false} RearrangementIsListed<T>(input: seq<T>, p: seq<T>)
    requires multiset(p) == multiset(input)
    ensures p in PermutationsOf(input)
    decreases |input|
  {
    if |input| <= 1 {
      SmallRearrangement(input, p);
    } else {
      var x, rest := input[0], input[1..];
      var subs := PermutationsOf(rest);
      assert input == [x] + rest;
      var q, i := RemoveThenInsert(p, rest, x);
      RearrangementIsListed(rest, q);
      var k :| 0 <= k < |subs| && subs[k] == q;
      SpreadHas(subs, x, p);
    }
  }

  lemma SmallRearrangement<T>(input: seq<T>, p: seq<T>)
    requires |input| <= 1
    ensures p == input <==> multiset(p) == multiset(input)
  {
    if multiset(p) == multiset(input) {
      assert |p| == |multiset(p)| == |multiset(input)| == |input|;
      if |p| == 1 {
        assert p[0] in multiset(input);
        assert p == [p[0]] && input == [input[0]];
      }
    }
  }

  lemma OneMoreRow(n: nat, m: nat)
    ensures (n + 1) * m == n * m + m
  {
  }

  lemma {:induction false} SpreadSize<T>(subs: seq<seq<T>>, x: T, m: nat)
    requires forall k :: 0 <= k < |subs| ==> |subs[k]| + 1 == m
    ensures |Spread(subs, x)| == |subs| * m
    decreases |subs|
  {
    if subs != [] {
      var n := |subs| - 1;
      var front := subs[..n];
      assert forall k :: 0 <= k < n ==> front[k] == subs[k];
      SpreadSize(front, x, m);
      OneMoreRow(n, m);
    }
  }

  lemma PermutationLength<T>(input: seq<T>, k: nat)
    requires k < |PermutationsOf(input)|
    ensures |PermutationsOf(input)[k]| == |input|
  {
    var p := PermutationsOf(input)[k];
    assert p in PermutationsOf(input);
    PermutationRearranges(input, p);
    assert |multiset(p)| == |multiset(input)|;
  }

  lemma {:induction false} PermutationsCount<T>(input: seq<T>)
    ensures |PermutationsOf(input)| == Factorial(|input|)
    decreases |input|
  {
    if |input| <= 1 {
      assert Factorial(1) == 1 * Factorial(0);
    } else {
      var n, rest := |input|, input[1..];
      var subs := PermutationsOf(rest);
      PermutationsCount(rest);
      forall k | 0 <= k < |subs| ensures |subs[k]| + 1 == n {
        PermutationLength(rest, k);
      }
      SpreadSize(subs, input[0], n);
      assert Factorial(n) == n * Factorial(n - 1);
    }
  }

  /** Inserting an item that is in neither list, at the same or different places, loses nothing. */
  lemma InsertInjective<T>(s: seq<T>, i: nat, s': seq<T>, i': nat, x: T)
    requires i <= |s| && i' <= |s'| && x !in s && x !in s'
    requires Insert(s, i, x) == Insert(s', i', x)
    ensures i == i' && s == s'
  {
    var p, p' := Insert(s, i, x), Insert(s', i', x);
    assert p[i] == x && p'[i'] == x;
    assert forall j :: 0 <= j < |p| && j != i ==> p[j] == s[if j < i then j else j - 1];
    assert forall j :: 0 <= j < |p'| && j != i' ==> p'[j] == s'[if j < i' then j else j - 1];
    assert i == i';
    assert s == p[..i] + p[i + 1..];
    assert s' == p'[..i] + p'[i + 1..];
  }

  lemma {:induction false} SpreadDistinct<T>(subs: seq<seq<T>>, x: T)
    requires Distinct(subs) && forall k :: 0 <= k < |subs| ==> x !in subs[k]
    ensures Distinct(Spread(subs, x))
    decreases |subs|
  {
    if subs != [] {
      var n := |subs| - 1;
      var front, a, b := subs[..n], Spread(subs[..n], x), Row(subs[n], x);
      SpreadDistinct(front, x);
      forall i, j | 0 <= i < j < |b| ensures b[i] != b[j] {
        if Insert(subs[n], i, x) == Insert(subs[n], j, x) {
          InsertInjective(subs[n], i, subs[n], j, x);
        }
      }
      forall i, j | 0 <= i < |a| && 0 <= j < |b| ensures a[i] != b[j] {
        if a[i] == b[j] {
          assert a[i] in a;
          SpreadHas(front, x, a[i]);
          var k, m :| 0 <= k < |front| && 0 <= m <= |front[k]| && Insert(front[k], m, x) == a[i];
          assert front[k] == subs[k];
          InsertInjective(subs[k], m, subs[n], j, x);
        }
      }
    }
  }

  lemma {:induction false} PermutationsDistinct<T>(input: seq<T>)
    requires Distinct(input)
    ensures Distinct(PermutationsOf(input))
    decreases |input|
  {
    if |input| > 1 {
      var x, rest := input[0], input[1..];
      var subs := PermutationsOf(rest);
      PermutationsDistinct(rest);
      forall k | 0 <= k < |subs| ensures x !in subs[k] {
        assert subs[k] in subs;
        PermutationsAreRearrangements(rest, subs[k]);
        assert x in subs[k] <==> x in multiset(subs[k]);
        assert x in rest <==> x in multiset(rest);
      }
      SpreadDistinct(subs, x);
    }
  }

  // ---------------------------------------------------------------- the method

  /** n! lists: every rearrangement of the input and nothing else, each once when the items are distinct. */
  method AllPermutations<T>(inputList: seq<T>) returns (outLists: seq<seq<T>>)
    ensures outLists == PermutationsOf(inputList)
    decreases |inputList|
  {
    outLists := [];
    if |inputList| > 1 {
      var item := inputList[0];
      var subLists := AllPermutations(inputList[1..]);
      for k := 0 to |subLists|
        invariant outLists == Spread(subLists[..k], item)
      {
        assert subLists[..k + 1][..k] == subLists[..k];
        PermutationLength(inputList[1..], k);
        ghost var before := outLists;
        for i := 0 to |inputList|
          invariant outLists == before + Row(subLists[k], item)[..i]
        {
          var newList := Insert(subLists[k], i, item);
          outLists := outLists + [newList];
        }
      }
      assert subLists[..|subLists|] == subLists;
    } else {
      outLists := [inputList];
    }
  }
}
