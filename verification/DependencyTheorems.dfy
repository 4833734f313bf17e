/** What the two sorts and the cycle search say about each other. */
module DependencyTheorems {
  import opened Dictionary
  import opened Digraph
  import opened DependencySort
  import opened CycleSearch

  // ---------------------------------------------------------------- tables given without pairs

  /** The places at which x is listed as a child. */
  ghost function Listings<T(!new)>(children: map<T, seq<T>>, x: T): set<(T, int)> {
    set k, i | k in children && 0 <= i < |children[k]| && children[k][i] == x :: (k, i)
  }

  ghost function InRow<T(!new)>(k: T, cs: seq<T>, x: T): set<(T, int)> {
    set i | 0 <= i < |cs| && cs[i] == x :: (k, i)
  }

  lemma {:induction false} InRowSize<T(!new)>(k: T, cs: seq<T>, x: T)
    ensures |InRow(k, cs, x)| == Occurrences(cs, x)
    decreases |cs|
  {
    if cs != [] {
      var n := |cs| - 1;
      InRowSize(k, cs[..n], x);
      assert InRow(k, cs, x) == InRow(k, cs[..n], x) + if cs[n] == x then {(k, n)} else {};
    }
  }

  lemma ListingsSplit<T(!new)>(children: map<T, seq<T>>, k: T, x: T)
    requires k in children
    ensures |Listings(children, x)| == |Listings(children - {k}, x)| + Occurrences(children[k], x)
  {
    var rest, row := Listings(children - {k}, x), InRow(k, children[k], x);
    assert Listings(children, x) == rest + row;
    assert rest !! row;
    InRowSize(k, children[k], x);
  }

  /** The pairs with one more row of children. */
  lemma {:induction false} AppendRow<T(!new)>(pairs0: seq<(T, T)>, k: T, cs: seq<T>) returns (pairs: seq<(T, T)>)
    ensures forall x :: ChildList(pairs, x) == ChildList(pairs0, x) + if x == k then cs else []
    ensures forall x :: ParentCount(pairs, {}, x) == ParentCount(pairs0, {}, x) + Occurrences(cs, x)
    decreases |cs|
  {
    if cs == [] {
      pairs := pairs0;
    } else {
      var n := |cs| - 1;
      var shorter := AppendRow(pairs0, k, cs[..n]);
      pairs := shorter + [(k, cs[n])];
      assert pairs[..|shorter|] == shorter;
      assert cs == cs[..n] + [cs[n]];
      forall x ensures ChildList(pairs, x) == ChildList(pairs0, x) + if x == k then cs else [] {
        assert ChildList(pairs, x) == ChildList(shorter, x) + if x == k then [cs[n]] else [];
      }
    }
  }

  /** The pairs list exactly the children of the table, with as many pairs for each child as listings. */
  ghost predicate Unrolls<T(!new)>(pairs: seq<(T, T)>, children: map<T, seq<T>>) {
    && (forall x :: ChildList(pairs, x) == if x in children then children[x] else [])
    && (forall x :: ParentCount(pairs, {}, x) == |Listings(children, x)|)
  }

  lemma RowAdded<T(!new)>(children: map<T, seq<T>>, k: T, shorter: seq<(T, T)>) returns (pairs: seq<(T, T)>)
    requires k in children && Unrolls(shorter, children - {k})
    ensures Unrolls(pairs, children)
  {
    pairs := AppendRow(shorter, k, children[k]);
    forall x ensures ParentCount(pairs, {}, x) == |Listings(children, x)| {
      ListingsSplit(children, k, x);
    }
    forall x ensures ChildList(pairs, x) == if x in children then children[x] else [] {
      assert ChildList(pairs, x) == ChildList(shorter, x) + if x == k then children[k] else [];
    }
  }

  lemma {:induction false} PairsOf<T(!new)>(children: map<T, seq<T>>, keys: set<T>) returns (pairs: seq<(T, T)>)
    requires keys == children.Keys
    ensures Unrolls(pairs, children)
    decreases keys
  {
    if keys == {} {
      pairs := [];
      forall x ensures Listings(children, x) == {} {
      }
    } else {
      var k :| k in keys;
      var shorter := PairsOf(children - {k}, keys - {k});
      pairs := RowAdded(children, k, shorter);
    }
  }

  /** Two tables are those of some list of pairs when everything that has children or is listed as a child
      has a count, and each count is the number of places at which the item is listed. */
  lemma TablesComeFromPairs<T(!new)>(numParents: map<T, int>, children: map<T, seq<T>>) returns (pairs: seq<(T, T)>)
    requires forall k, i :: k in children && 0 <= i < |children[k]| ==> k in numParents && children[k][i] in numParents
    requires forall x :: x in numParents ==> numParents[x] == |Listings(children, x)|
    ensures CountTable(pairs, numParents.Keys, {}, numParents) && ChildTable(pairs, {}, children)
    ensures EdgesOf(pairs) == GraphEdges(children)
  {
    pairs := PairsOf(children, children.Keys);
    forall u, v ensures (u, v) in pairs <==> u in children && v in children[u] {
      ChildListMembers(pairs, u, v);
    }
    forall e | e in pairs ensures e.0 in numParents && e.1 in numParents {
      assert e == (e.0, e.1);
      var i :| 0 <= i < |children[e.0]| && children[e.0][i] == e.1;
    }
    forall x | x in ParentsIn(pairs) ensures x in children {
      var e :| e in pairs && e.0 == x;
      assert e == (e.0, e.1);
    }
  }

  // ---------------------------------------------------------------- the two sorts and the search

  lemma {:induction false} DistinctCounts<T>(a: seq<T>, x: T)
    requires Distinct(a)
    ensures multiset(a)[x] == if x in a then 1 else 0
    decreases |a|
  {
    if a != [] {
      var n := |a| - 1;
      DistinctCounts(a[..n], x);
      assert a == a[..n] + [a[n]];
    }
  }

  lemma SameSetSameMultiset<T(!new)>(a: seq<T>, b: seq<T>)
    requires Distinct(a) && Distinct(b) && SetOf(a) == SetOf(b)
    ensures multiset(a) == multiset(b)
  {
    forall x: T ensures multiset(a)[x] == multiset(b)[x] {
      DistinctCounts(a, x);
      DistinctCounts(b, x);
      assert (x in SetOf(a) <==> x in a) && (x in SetOf(b) <==> x in b);
    }
  }

  /** On an acyclic list the levels, run together, are a permutation of what topsort returns. */
  lemma LevelsPermuteSort<T(!new)>(pairs: seq<(T, T)>, answer: seq<T>, levels: seq<seq<T>>)
    requires TopologicalOrder(EdgesOf(pairs), Elements(pairs), answer)
    requires TopologicalOrder(EdgesOf(pairs), Elements(pairs), Flatten(levels))
    ensures multiset(Flatten(levels)) == multiset(answer)
  {
    SameSetSameMultiset(Flatten(levels), answer);
  }

  /** On a cyclic list both sorts report the same counts and, from a list of pairs, the same children, and list
      the same elements before stopping. */
  lemma SameLeftover<T(!new)>(pairs: seq<(T, T)>, all: set<T>, answer: seq<T>, numParents: map<T, int>,
                              children: map<T, seq<T>>,
                              answer': seq<T>, numParents': map<T, int>, children': map<T, seq<T>>)
    requires HeldBack(pairs, all, answer, numParents, children) && HeldBack(pairs, all, answer', numParents', children')
    ensures numParents == numParents' && multiset(answer) == multiset(answer')
    ensures children.Keys == ParentsIn(pairs) - SetOf(answer) && children'.Keys == ParentsIn(pairs) - SetOf(answer') ==>
      children == children'
  {
    assert SetOf(answer) == SetOf(answer');
    SameSetSameMultiset(answer, answer');
  }

  /** Every element left over still waits for a parent that is itself left over. */
  lemma LeftoverWaitsForLeftover<T(!new)>(pairs: seq<(T, T)>, all: set<T>, answer: seq<T>, numParents: map<T, int>,
                                          children: map<T, seq<T>>, x: T)
    requires HeldBack(pairs, all, answer, numParents, children) && x in numParents
    ensures numParents[x] > 0
    ensures exists u :: u in numParents && u in children && x in children[u]
  {
    var es := EdgesOf(pairs);
    assert x !in SetOf(answer);
    if ParentCount(pairs, SetOf(answer), x) == 0 {
      ParentCountZero(pairs, SetOf(answer), x);
      forall e, j | e in es && 0 <= j < |answer + [x]| && (answer + [x])[j] == e.1 ensures e.0 in (answer + [x])[..j] {
        if j < |answer| {
          assert answer[j] == e.1 && (answer + [x])[..j] == answer[..j];
        } else {
          assert e.0 in SetOf(answer);
          assert (answer + [x])[..j] == answer;
        }
      }
      assert Distinct(answer + [x]);
      OrderedMeansNotFromCycle(es, answer + [x], x);
      assert false;
    }
    ParentCountZero(pairs, SetOf(answer), x);
    var e :| e in pairs && e.1 == x && e.0 !in SetOf(answer);
    ChildListMembers(pairs, e.0, x);
    assert e == (e.0, x);
    assert e.0 in ParentsIn(pairs) && e.0 in Elements(pairs);
    assert e.0 in children && e.0 in numParents;
  }

  /** Every left-over element has a child exactly when everything on or behind a cycle is a parent in some
      pair, that is, when no cycle leads to an element without children. */
  lemma LeftoversHaveChildrenIff<T(!new)>(pairs: seq<(T, T)>, all: set<T>, answer: seq<T>, numParents: map<T, int>,
                                          children: map<T, seq<T>>)
    requires HeldBack(pairs, all, answer, numParents, children)
    ensures (forall x :: x in numParents ==> x in children && children[x] != [])
       <==> (forall x :: x in all && FromCycle(EdgesOf(pairs), x) ==> x in ParentsIn(pairs))
  {
    forall x | x in numParents
      ensures x in ParentsIn(pairs) <==> x in children && children[x] != []
    {
      assert x !in SetOf(answer);
      if x in ParentsIn(pairs) {
        var e :| e in pairs && e.0 == x;
        ChildListMembers(pairs, x, e.1);
        assert e == (x, e.1);
      } else {
        NotElement(pairs, x);
      }
    }
  }

  /** A left-over element need not have a child: 3 waits behind the cycle of 1 and 2. */
  lemma LeftoverWithoutChild(answer: seq<int>, numParents: map<int, int>, children: map<int, seq<int>>)
    requires HeldBack([(1, 2), (2, 1), (2, 3)], {1, 2, 3}, answer, numParents, children)
    ensures 3 in numParents && forall x :: (3, x) !in [(1, 2), (2, 1), (2, 3)]
  {
    var pairs := [(1, 2), (2, 1), (2, 3)];
    var es := EdgesOf(pairs);
    assert pairs[0] in es && pairs[1] in es && pairs[2] in es;
    assert ClosedWalk(es, [2, 1, 2]);
    assert OnCycle(es, 2);
    assert Walk(es, [2, 3]) && [2, 3][0] == 2 && Last([2, 3]) == 3;
    assert FromCycle(es, 3);
  }

  lemma AcyclicIffNoSimpleCycle<T(!new)>(es: set<(T, T)>)
    ensures Acyclic(es) <==> forall c :: !SimpleCycle(es, c)
  {
    if !Acyclic(es) {
      var p :| ClosedWalk(es, p);
      var c := ClosedWalkHoldsSimpleCycle(es, p);
    }
    if exists c :: SimpleCycle(es, c) {
      var c :| SimpleCycle(es, c);
      AppendToWalk(es, c, c[0]);
      assert ClosedWalk(es, c + [c[0]]);
    }
  }

  lemma ChildTableEdges<T(!new)>(pairs: seq<(T, T)>, done: set<T>, children: map<T, seq<T>>)
    requires ChildTable(pairs, done, children)
    ensures GraphEdges(children) == set e | e in EdgesOf(pairs) && e.0 !in done
  {
    forall u, v ensures (u, v) in GraphEdges(children) <==> (u, v) in pairs && u !in done {
      ChildListMembers(pairs, u, v);
      if (u, v) in pairs && u !in done {
        assert (u, v).0 in ParentsIn(pairs);
      }
    }
  }

  lemma CycleIsLeftOver<T(!new)>(pairs: seq<(T, T)>, all: set<T>, answer: seq<T>, numParents: map<T, int>,
                                 children: map<T, seq<T>>, c: seq<T>)
    requires HeldBack(pairs, all, answer, numParents, children) && SimpleCycle(EdgesOf(pairs), c)
    ensures forall i :: 0 <= i < |c| ==> c[i] in numParents && c[i] !in SetOf(answer)
  {
    var es := EdgesOf(pairs);
    forall i | 0 <= i < |c| ensures c[i] in numParents {
      RotatedCycle(es, c, i);
      var d := c[i..] + c[..i];
      AppendToWalk(es, d, d[0]);
      ReturningPrefixIsClosed(es, d + [d[0]], |d|);
      assert Walk(es, [d[0]]) && [d[0]][0] == d[0] && Last([d[0]]) == d[0];
      assert FromCycle(es, d[0]);
      var e := (Last(d), d[0]);
      assert e in pairs && e.1 in Elements(pairs);
    }
  }

  /** The children a CycleError carries have exactly the cycles of the whole list of pairs. */
  lemma ErrorKeepsEveryCycle<T(!new)>(pairs: seq<(T, T)>, all: set<T>, answer: seq<T>, numParents: map<T, int>,
                                      children: map<T, seq<T>>, c: seq<T>)
    requires HeldBack(pairs, all, answer, numParents, children)
    ensures SimpleCycle(GraphEdges(children), c) <==> SimpleCycle(EdgesOf(pairs), c)
  {
    ChildTableEdges(pairs, SetOf(answer), children);
    if SimpleCycle(EdgesOf(pairs), c) {
      CycleIsLeftOver(pairs, all, answer, numParents, children, c);
    }
  }

  lemma Explained<T(!new)>(pairs: seq<(T, T)>, all: set<T>, answer: seq<T>, numParents: map<T, int>,
                           children: map<T, seq<T>>, cycles: seq<seq<T>>)
    requires HeldBack(pairs, all, answer, numParents, children) && !Acyclic(EdgesOf(pairs))
    requires GoodCycles(children, cycles)
    requires forall c :: SimpleCycle(GraphEdges(children), c) ==> Covered(cycles, c)
    ensures cycles != [] && forall i :: 0 <= i < |cycles| ==> SimpleCycle(EdgesOf(pairs), cycles[i])
    ensures forall c :: SimpleCycle(EdgesOf(pairs), c) ==> Covered(cycles, c)
  {
    forall c ensures SimpleCycle(GraphEdges(children), c) <==> SimpleCycle(EdgesOf(pairs), c) {
      ErrorKeepsEveryCycle(pairs, all, answer, numParents, children, c);
    }
    AcyclicIffNoSimpleCycle(EdgesOf(pairs));
  }

  /** The dictionary of children holds a cycle for find_cycles to list exactly when topsort raises. */
  lemma SortFailsIffCyclesFound<T(!new)>(pairs: seq<(T, T)>, children: map<T, seq<T>>, cycles: seq<seq<T>>)
    requires ChildTable(pairs, {}, children)
    requires GoodCycles(children, cycles)
    requires forall c :: SimpleCycle(GraphEdges(children), c) ==> Covered(cycles, c)
    ensures cycles == [] <==> Acyclic(EdgesOf(pairs))
  {
    ChildTableEdges(pairs, {}, children);
    assert GraphEdges(children) == EdgesOf(pairs);
    AcyclicIffNoSimpleCycle(EdgesOf(pairs));
    if cycles != [] {
      assert SimpleCycle(GraphEdges(children), cycles[0]);
    }
  }

  /** Sorting, and on failure listing the cycles among the children the error carries: at least one is
      found, and every cycle of the whole list of pairs is found up to rotation. */
  method SortOrExplain<T(==, !new)>(pairs: seq<(T, T)>) returns (r: SortResult<T>, cycles: seq<seq<T>>)
    ensures r.Sorted? <==> cycles == []
    ensures forall i :: 0 <= i < |cycles| ==> SimpleCycle(EdgesOf(pairs), cycles[i])
    ensures forall c :: SimpleCycle(EdgesOf(pairs), c) ==> Covered(cycles, c)
  {
    r := TopSort(pairs);
    if r.Sorted? {
      AcyclicIffNoSimpleCycle(EdgesOf(pairs));
      cycles := [];
    } else {
      cycles := FindCycles(r.children);
      Explained(pairs, Elements(pairs), r.answer, r.numParents, r.children, cycles);
    }
  }
}
