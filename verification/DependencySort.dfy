/** The dependency sorts of bindings/python/topsort.py. A pair is (parent, child); the list of pairs is a
    multigraph, so a pair may be repeated and may join an element to itself. */
module DependencySort {
  import opened Dictionary
  import opened Digraph

  datatype SortResult<T> =
    | Sorted(answer: seq<T>)
    | CycleError(answer: seq<T>, numParents: map<T, int>, children: map<T, seq<T>>)

  datatype LevelsEnd<T> =
    | StopIteration
    | LevelsCycleError(numParents: map<T, int>, children: map<T, seq<T>>)

  // ---------------------------------------------------------------- what the two tables hold

  ghost function EdgesOf<T>(pairs: seq<(T, T)>): set<(T, T)> {
    set e | e in pairs
  }

  ghost function Elements<T>(pairs: seq<(T, T)>): set<T> {
    (set e | e in pairs :: e.0) + (set e | e in pairs :: e.1)
  }

  ghost function ParentsIn<T>(pairs: seq<(T, T)>): set<T> {
    set e | e in pairs :: e.0
  }

  /** The children of x, in list order and with repetitions. */
  ghost function ChildList<T>(pairs: seq<(T, T)>, x: T): seq<T> {
    if pairs == [] then [] else
      var e := Last(pairs);
      ChildList(pairs[..|pairs| - 1], x) + if e.0 == x then [e.1] else []
  }

  /** How many pairs have x as child and a parent outside `done`. */
  ghost function ParentCount<T>(pairs: seq<(T, T)>, done: set<T>, x: T): nat {
    if pairs == [] then 0 else
      var e := Last(pairs);
      ParentCount(pairs[..|pairs| - 1], done, x) + if e.1 == x && e.0 !in done then 1 else 0
  }

  ghost function Occurrences<T>(s: seq<T>, x: T): nat {
    if s == [] then 0 else Occurrences(s[..|s| - 1], x) + if Last(s) == x then 1 else 0
  }

  lemma {:induction false} ParentCountZero<T>(pairs: seq<(T, T)>, done: set<T>, x: T)
    ensures ParentCount(pairs, done, x) == 0 <==> forall e :: e in pairs && e.1 == x ==> e.0 in done
  {
    if pairs != [] {
      ParentCountZero(pairs[..|pairs| - 1], done, x);
      assert pairs == pairs[..|pairs| - 1] + [Last(pairs)];
    }
  }

  /** Marking one parent done lowers each count by the number of times it occurs in that parent's children. */
  lemma {:induction false} ParentCountDrop<T>(pairs: seq<(T, T)>, done: set<T>, parent: T, x: T)
    requires parent !in done
    ensures ParentCount(pairs, done, x)
         == ParentCount(pairs, done + {parent}, x) + Occurrences(ChildList(pairs, parent), x)
  {
    if pairs != [] {
      var front, e := pairs[..|pairs| - 1], Last(pairs);
      ParentCountDrop(front, done, parent, x);
      var cs := ChildList(front, parent);
      assert e.0 == parent ==> (cs + [e.1])[..|cs|] == cs;
      assert cs + [] == cs;
    }
  }

  lemma {:induction false} OccurrencesPositive<T>(s: seq<T>, x: T)
    ensures Occurrences(s, x) > 0 <==> x in s
  {
    if s != [] {
      OccurrencesPositive(s[..|s| - 1], x);
      assert s == s[..|s| - 1] + [Last(s)];
    }
  }

  lemma {:induction false} OccurrencesPrefix<T>(s: seq<T>, k: nat, x: T)
    requires k <= |s|
    ensures Occurrences(s[..k], x) <= Occurrences(s, x)
    decreases |s|
  {
    if k < |s| {
      OccurrencesPrefix(s[..|s| - 1], k, x);
      assert s[..|s| - 1][..k] == s[..k];
    } else {
      assert s[..k] == s;
    }
  }

  lemma {:induction false} ChildListMembers<T>(pairs: seq<(T, T)>, x: T, c: T)
    ensures c in ChildList(pairs, x) <==> (x, c) in pairs
  {
    if pairs != [] {
      ChildListMembers(pairs[..|pairs| - 1], x, c);
      assert pairs == pairs[..|pairs| - 1] + [Last(pairs)];
      assert Last(pairs) == (Last(pairs).0, Last(pairs).1);
    }
  }

  /** The counts, over the parents outside `done`, of everything outside `done`; `all` may hold items that
      occur in no pair, whose count is zero. */
  ghost predicate CountTable<T>(pairs: seq<(T, T)>, all: set<T>, done: set<T>, numParents: map<T, int>) {
    && Elements(pairs) <= all && numParents.Keys == all - done
    && forall x :: x in numParents ==> numParents[x] == ParentCount(pairs, done, x)
  }

  /** The children of every parent outside `done`; anything without children may have an empty entry. */
  ghost predicate ChildTable<T>(pairs: seq<(T, T)>, done: set<T>, children: map<T, seq<T>>) {
    && ParentsIn(pairs) - done <= children.Keys && children.Keys !! done
    && forall x :: x in children ==> children[x] == ChildList(pairs, x)
  }

  lemma {:induction false} NotElement<T>(pairs: seq<(T, T)>, x: T)
    ensures x !in Elements(pairs) ==> ParentCount(pairs, {}, x) == 0
    ensures x !in ParentsIn(pairs) ==> ChildList(pairs, x) == []
  {
    if pairs != [] {
      var front := pairs[..|pairs| - 1];
      assert Last(pairs) in pairs;
      assert forall e :: e in front ==> e in pairs;
      NotElement(front, x);
    }
  }

  lemma ElementsAppend<T>(pairs: seq<(T, T)>, e: (T, T))
    ensures Elements(pairs + [e]) == Elements(pairs) + {e.0, e.1}
    ensures ParentsIn(pairs + [e]) == ParentsIn(pairs) + {e.0}
  {
    assert e in pairs + [e];
    assert forall f :: f in pairs + [e] <==> f in pairs || f == e;
  }

  lemma CountTableAppend<T>(pairs: seq<(T, T)>, e: (T, T), before: map<T, int>, after: map<T, int>)
    requires CountTable(pairs, Elements(pairs), {}, before)
    requires after.Keys == before.Keys + {e.0, e.1}
    requires forall x :: x in after ==>
      after[x] == (if x in before then before[x] else 0) + if x == e.1 then 1 else 0
    ensures CountTable(pairs + [e], Elements(pairs + [e]), {}, after)
  {
    ElementsAppend(pairs, e);
    assert (pairs + [e])[..|pairs|] == pairs;
    forall x | x in after ensures after[x] == ParentCount(pairs + [e], {}, x) {
      NotElement(pairs, x);
    }
  }

  lemma ChildTableAppend<T>(pairs: seq<(T, T)>, e: (T, T), children: map<T, seq<T>>)
    requires ChildTable(pairs, {}, children) && children.Keys == ParentsIn(pairs)
    ensures var after := children[e.0 := (if e.0 in children then children[e.0] else []) + [e.1]];
      ChildTable(pairs + [e], {}, after) && after.Keys == ParentsIn(pairs + [e])
  {
    ElementsAppend(pairs, e);
    NotElement(pairs, e.0);
    assert (pairs + [e])[..|pairs|] == pairs;
    forall x | x in ParentsIn(pairs + [e])
      ensures ChildList(pairs + [e], x) == ChildList(pairs, x) + if x == e.0 then [e.1] else []
    {
    }
    forall x | x in ParentsIn(pairs + [e]) ensures x in Elements(pairs + [e]) {
    }
    forall x | x in children && x != e.0 ensures ChildList(pairs + [e], x) == children[x] {
      assert ChildList(pairs, x) + [] == ChildList(pairs, x);
    }
  }

  /** Counts the parents and lists the children of every element. */
  method Tabulate<T(==, !new)>(pairs: seq<(T, T)>) returns (numParents: map<T, int>, children: map<T, seq<T>>)
    ensures CountTable(pairs, Elements(pairs), {}, numParents) && ChildTable(pairs, {}, children)
    ensures children.Keys == ParentsIn(pairs)
  {
    numParents, children := map[], map[];
    for i := 0 to |pairs|
      invariant CountTable(pairs[..i], Elements(pairs[..i]), {}, numParents) && ChildTable(pairs[..i], {}, children)
      invariant children.Keys == ParentsIn(pairs[..i])
    {
      var (parent, child) := pairs[i];
      ghost var before := numParents;
      if parent !in numParents {
        numParents := numParents[parent := 0];
      }
      if child !in numParents {
        numParents := numParents[child := 0];
      }
      numParents := numParents[child := numParents[child] + 1];
      CountTableAppend(pairs[..i], pairs[i], before, numParents);
      ChildTableAppend(pairs[..i], pairs[i], children);
      children := children[parent := (if parent in children then children[parent] else []) + [child]];
      assert pairs[..i + 1] == pairs[..i] + [pairs[i]];
    }
    assert pairs[..|pairs|] == pairs;
  }

  // ---------------------------------------------------------------- topsort

  /** The keys whose count is zero, each once, in dictionary order. */
  method ZeroKeys<T(==)>(numParents: map<T, int>) returns (zeros: seq<T>)
    ensures Distinct(zeros)
    ensures SetOf(zeros) == set x | x in numParents && numParents[x] == 0
  {
    var keys := KeysInSomeOrder(numParents);
    zeros := [];
    for i := 0 to |keys|
      invariant Distinct(zeros)
      invariant forall x :: x in zeros <==> x in keys[..i] && x in numParents && numParents[x] == 0
    {
      assert keys[i] in SetOf(keys);
      assert keys[..i + 1] == keys[..i] + [keys[i]];
      assert forall j :: 0 <= j < i ==> keys[j] != keys[i];
      if numParents[keys[i]] == 0 {
        assert keys[i] !in keys[..i];
        zeros := zeros + [keys[i]];
      }
    }
    assert keys[..|keys|] == keys;
    assert forall x :: x in numParents <==> x in SetOf(keys);
  }

  lemma ParentsFirstAppend<T>(pairs: seq<(T, T)>, a: seq<T>, done: set<T>, x: T)
    requires ParentsFirst(EdgesOf(pairs), a)
    requires done <= SetOf(a) && ParentCount(pairs, done, x) == 0
    ensures ParentsFirst(EdgesOf(pairs), a + [x])
  {
    ParentCountZero(pairs, done, x);
    var b := a + [x];
    forall e, j | e in EdgesOf(pairs) && 0 <= j < |b| && b[j] == e.1 ensures e.0 in b[..j] {
      if j < |a| {
        assert a[j] == e.1 && b[..j] == a[..j];
      } else {
        assert b[..j] == a;
      }
    }
  }

  /** The elements with no parent outside `done`. */
  ghost function Free<T>(pairs: seq<(T, T)>, all: set<T>, done: set<T>): set<T> {
    set x | x in all && ParentCount(pairs, done, x) == 0
  }

  /** The state between two steps of the main loop: `done` has been taken out of the tables, and the
      answer lists, parents first, the elements that no longer wait for a parent. */
  ghost predicate Progress<T>(pairs: seq<(T, T)>, all: set<T>, done: set<T>, numParents: map<T, int>,
                              children: map<T, seq<T>>, answer: seq<T>) {
    && CountTable(pairs, all, done, numParents)
    && ChildTable(pairs, done, children)
    && TopologicalOrder(EdgesOf(pairs), Free(pairs, all, done), answer)
    && done <= Free(pairs, all, done)
  }

  /** Why a child of an element now being taken out still has an entry with a positive count. */
  lemma ChildIsWaiting<T>(pairs: seq<(T, T)>, all: set<T>, done: set<T>, parent: T, cs: seq<T>, k: nat)
    requires cs == ChildList(pairs, parent) && k < |cs|
    requires parent !in done && ParentCount(pairs, done, parent) == 0 && done <= Free(pairs, all, done)
    requires Elements(pairs) <= all
    ensures cs[k] in all && cs[k] !in done && cs[k] != parent
    ensures ParentCount(pairs, done, cs[k]) > Occurrences(cs[..k], cs[k])
  {
    var c := cs[k];
    ChildListMembers(pairs, parent, c);
    ParentCountZero(pairs, done, c);
    ParentCountZero(pairs, done, parent);
    ParentCountDrop(pairs, done, parent, c);
    OccurrencesPrefix(cs, k + 1, c);
    assert cs[..k + 1][..k] == cs[..k];
    assert (parent, c) in pairs;
  }

  /** The counts after the first k children of an element being taken out have been knocked down. */
  ghost predicate MidCounts<T>(pairs: seq<(T, T)>, all: set<T>, done: set<T>, parent: T, cs: seq<T>, k: nat,
                               numParents: map<T, int>)
    requires k <= |cs|
  {
    && numParents.Keys == all - done - {parent}
    && forall x :: x in numParents ==> numParents[x] == ParentCount(pairs, done, x) - Occurrences(cs[..k], x)
  }

  /** What makes an element ready to be taken out. */
  ghost predicate Ready<T>(pairs: seq<(T, T)>, all: set<T>, done: set<T>, parent: T, cs: seq<T>) {
    Elements(pairs) <= all && parent !in done && cs == ChildList(pairs, parent) &&
      done + {parent} <= Free(pairs, all, done)
  }

  lemma MidCountsStep<T>(pairs: seq<(T, T)>, all: set<T>, done: set<T>, parent: T, cs: seq<T>, k: nat,
                         numParents: map<T, int>)
    requires Ready(pairs, all, done, parent, cs) && k < |cs| && MidCounts(pairs, all, done, parent, cs, k, numParents)
    ensures cs[k] in numParents && numParents[cs[k]] > 0
    ensures MidCounts(pairs, all, done, parent, cs, k + 1, numParents[cs[k] := numParents[cs[k]] - 1])
  {
    assert parent in Free(pairs, all, done);
    ChildIsWaiting(pairs, all, done, parent, cs, k);
    assert cs[..k + 1][..k] == cs[..k];
  }

  lemma MidCountsEnd<T>(pairs: seq<(T, T)>, all: set<T>, done: set<T>, parent: T, cs: seq<T>, numParents: map<T, int>)
    requires Ready(pairs, all, done, parent, cs) && MidCounts(pairs, all, done, parent, cs, |cs|, numParents)
    ensures CountTable(pairs, all, done + {parent}, numParents)
  {
    assert cs[..|cs|] == cs;
    forall x | x in numParents ensures numParents[x] == ParentCount(pairs, done + {parent}, x) {
      ParentCountDrop(pairs, done, parent, x);
    }
  }

  /** The answer in between: parents first, and holding whatever no longer waits. */
  ghost predicate MidAnswer<T(!new)>(pairs: seq<(T, T)>, all: set<T>, done: set<T>, parent: T,
                                     numParents: map<T, int>, answer: seq<T>) {
    && Distinct(answer) && ParentsFirst(EdgesOf(pairs), answer)
    && forall x :: x in answer <==> x in done || x == parent || (x in numParents && numParents[x] == 0)
  }

  lemma MidAnswerStep<T(!new)>(pairs: seq<(T, T)>, all: set<T>, done: set<T>, parent: T, cs: seq<T>, k: nat,
                               numParents: map<T, int>, answer: seq<T>)
    requires Ready(pairs, all, done, parent, cs) && k < |cs| && MidCounts(pairs, all, done, parent, cs, k, numParents)
    requires MidAnswer(pairs, all, done, parent, numParents, answer)
    requires cs[k] in numParents && numParents[cs[k]] > 0 && cs[k] !in done && cs[k] != parent
    ensures var after := numParents[cs[k] := numParents[cs[k]] - 1];
      MidAnswer(pairs, all, done, parent, after, if after[cs[k]] == 0 then answer + [cs[k]] else answer)
  {
    var child := cs[k];
    if numParents[child] == 1 {
      assert child !in answer;
      assert cs[..k + 1][..k] == cs[..k];
      ParentCountDrop(pairs, done, parent, child);
      OccurrencesPrefix(cs, k + 1, child);
      ParentsFirstAppend(pairs, answer, done + {parent}, child);
    }
  }

  lemma MidAnswerStart<T(!new)>(pairs: seq<(T, T)>, all: set<T>, done: set<T>, parent: T, cs: seq<T>,
                                numParents: map<T, int>, answer: seq<T>)
    requires Ready(pairs, all, done, parent, cs) && MidCounts(pairs, all, done, parent, cs, 0, numParents)
    requires TopologicalOrder(EdgesOf(pairs), Free(pairs, all, done), answer)
    ensures MidAnswer(pairs, all, done, parent, numParents, answer)
  {
    assert forall x :: x in answer <==> x in SetOf(answer);
    assert parent in Free(pairs, all, done);
  }

  lemma MidAnswerEnd<T(!new)>(pairs: seq<(T, T)>, all: set<T>, done: set<T>, parent: T, cs: seq<T>,
                              numParents: map<T, int>, answer: seq<T>)
    requires Ready(pairs, all, done, parent, cs) && CountTable(pairs, all, done + {parent}, numParents)
    requires MidAnswer(pairs, all, done, parent, numParents, answer)
    ensures TopologicalOrder(EdgesOf(pairs), Free(pairs, all, done + {parent}), answer)
  {
    FreeGrows(pairs, all, done, done + {parent});
    assert parent in Free(pairs, all, done);
    forall x ensures x in answer <==> x in Free(pairs, all, done + {parent}) {
    }
  }

  lemma FreeGrows<T>(pairs: seq<(T, T)>, all: set<T>, done: set<T>, more: set<T>)
    requires done <= more
    ensures Free(pairs, all, done) <= Free(pairs, all, more)
  {
    forall x | x in Free(pairs, all, done) ensures x in Free(pairs, all, more) {
      ParentCountZero(pairs, done, x);
      ParentCountZero(pairs, more, x);
    }
  }

  /** Takes one element out: knocks down the count of each of its children and appends those that reach zero. */
  method ReleaseChildren<T(==, !new)>(ghost pairs: seq<(T, T)>, ghost all: set<T>, ghost done: set<T>,
                                      ghost parent: T, cs: seq<T>,
                                      numParents0: map<T, int>, answer0: seq<T>)
    returns (numParents: map<T, int>, answer: seq<T>)
    requires Ready(pairs, all, done, parent, cs) && MidCounts(pairs, all, done, parent, cs, 0, numParents0)
    requires TopologicalOrder(EdgesOf(pairs), Free(pairs, all, done), answer0)
    ensures CountTable(pairs, all, done + {parent}, numParents)
    ensures TopologicalOrder(EdgesOf(pairs), Free(pairs, all, done + {parent}), answer)
    ensures answer0 <= answer
  {
    numParents, answer := numParents0, answer0;
    MidAnswerStart(pairs, all, done, parent, cs, numParents, answer);
    for k := 0 to |cs|
      invariant MidCounts(pairs, all, done, parent, cs, k, numParents)
      invariant MidAnswer(pairs, all, done, parent, numParents, answer) && answer0 <= answer
    {
      var child := cs[k];
      MidCountsStep(pairs, all, done, parent, cs, k, numParents);
      MidAnswerStep(pairs, all, done, parent, cs, k, numParents, answer);
      numParents := numParents[child := numParents[child] - 1];
      if numParents[child] == 0 {
        answer := answer + [child];
      }
    }
    MidCountsEnd(pairs, all, done, parent, cs, numParents);
    MidAnswerEnd(pairs, all, done, parent, cs, numParents, answer);
  }

  lemma ParentlessIsOrdered<T>(pairs: seq<(T, T)>, all: set<T>, a: seq<T>)
    requires SetOf(a) <= Free(pairs, all, {})
    ensures ParentsFirst(EdgesOf(pairs), a)
  {
    forall j | 0 <= j < |a| ensures forall e :: e in EdgesOf(pairs) ==> e.1 != a[j] {
      assert a[j] in SetOf(a);
      ParentCountZero(pairs, {}, a[j]);
    }
  }

  /** Once everything that was released has been taken out, what is left is what cycles hold back. */
  lemma LeftoverIsFromCycle<T(!new)>(pairs: seq<(T, T)>, all: set<T>, answer: seq<T>)
    requires Elements(pairs) <= all && TopologicalOrder(EdgesOf(pairs), Free(pairs, all, SetOf(answer)), answer)
    ensures all - SetOf(answer) == set x | x in all && FromCycle(EdgesOf(pairs), x)
    ensures all == SetOf(answer) <==> Acyclic(EdgesOf(pairs))
  {
    var es, done := EdgesOf(pairs), SetOf(answer);
    var left := all - done;
    forall y | y in left ensures HasParentIn(es, left, y) {
      ParentCountZero(pairs, done, y);
      assert y !in Free(pairs, all, done);
      var e :| e in pairs && e.1 == y && e.0 !in done;
      assert e.0 in left && (e.0, y) in es;
    }
    forall y | y in left ensures FromCycle(es, y) {
      ParentClosedMeansFromCycle(es, left, [y], left);
    }
    forall y | y in done ensures !FromCycle(es, y) {
      OrderedMeansNotFromCycle(es, answer, y);
    }
    assert done <= all;
    AcyclicIffNoneFromCycle(es);
    if !Acyclic(es) {
      var p :| ClosedWalk(es, p);
      var e := (p[0], p[0 + 1]);
      assert e in es;
      assert e in pairs;
      assert e.0 in all;
      ReturningPrefixIsClosed(es, p, |p| - 1);
      SliceOfWalk(es, p, 0, 1);
      assert Last(p[0..1]) == p[0] && FromCycle(es, p[0]);
      assert p[0] !in done;
    } else {
      assert forall y :: y in all ==> y !in left;
      assert all <= done;
    }
  }

  lemma ChildlessReleasesNothing<T>(pairs: seq<(T, T)>, all: set<T>, done: set<T>, parent: T)
    requires parent !in ParentsIn(pairs) && parent !in done
    ensures forall x :: ParentCount(pairs, done + {parent}, x) == ParentCount(pairs, done, x)
    ensures Free(pairs, all, done + {parent}) == Free(pairs, all, done)
  {
    NotElement(pairs, parent);
    forall x ensures ParentCount(pairs, done + {parent}, x) == ParentCount(pairs, done, x) {
      ParentCountDrop(pairs, done, parent, x);
    }
  }

  /** One step of the main loop: the next answer leaves the tables, its children lose a parent. */
  method TakeOut<T(==, !new)>(ghost pairs: seq<(T, T)>, ghost all: set<T>, ghost done: set<T>, parent: T,
                              numParents0: map<T, int>, children0: map<T, seq<T>>, answer0: seq<T>)
    returns (numParents: map<T, int>, children: map<T, seq<T>>, answer: seq<T>)
    requires Progress(pairs, all, done, numParents0, children0, answer0)
    requires parent in answer0 && parent !in done
    ensures Progress(pairs, all, done + {parent}, numParents, children, answer)
    ensures answer0 <= answer && children.Keys == children0.Keys - {parent}
  {
    assert forall x :: x in answer0 <==> x in SetOf(answer0);
    numParents, children, answer := numParents0 - {parent}, children0, answer0;
    if parent in children {
      numParents, answer := ReleaseChildren(pairs, all, done, parent, children[parent], numParents, answer);
      children := children - {parent};
    } else {
      ChildlessReleasesNothing(pairs, all, done, parent);
    }
  }

  lemma PrefixGrows<T>(before: seq<T>, after: seq<T>, i: nat)
    requires before <= after && i < |before|
    ensures SetOf(after[..i + 1]) == SetOf(before[..i]) + {before[i]}
  {
    assert after[..i] == before[..i] && after[i] == before[i];
    assert after[..i + 1] == after[..i] + [after[i]];
  }

  /** The main loop: the answer grows while it is walked, until everything in it has been taken out. */
  method TakeOutAll<T(==, !new)>(ghost pairs: seq<(T, T)>, ghost all: set<T>, numParents0: map<T, int>,
                                 children0: map<T, seq<T>>,
                                 answer0: seq<T>)
    returns (numParents: map<T, int>, children: map<T, seq<T>>, answer: seq<T>)
    requires Progress(pairs, all, {}, numParents0, children0, answer0)
    requires children0.Keys == ParentsIn(pairs)
    ensures Progress(pairs, all, SetOf(answer), numParents, children, answer)
    ensures children.Keys == ParentsIn(pairs) - SetOf(answer)
  {
    numParents, children, answer := numParents0, children0, answer0;
    ghost var done: set<T> := {};
    var i := 0;
    while i < |answer|
      invariant 0 <= i <= |answer| && done == SetOf(answer[..i])
      invariant Progress(pairs, all, done, numParents, children, answer)
      invariant children.Keys == ParentsIn(pairs) - done
      decreases all - done
    {
      var parent := answer[i];
      assert parent !in answer[..i] && parent in SetOf(answer);
      ghost var before := answer;
      numParents, children, answer := TakeOut(pairs, all, done, parent, numParents, children, answer);
      PrefixGrows(before, answer, i);
      done := done + {parent};
      i := i + 1;
    }
    assert answer[..i] == answer;
  }

  /** What a CycleError carries: the answer orders everything that no cycle holds back; the other two
      tables cover exactly what cycles do hold back, counting only parents that are themselves held back. */
  ghost predicate HeldBack<T(!new)>(pairs: seq<(T, T)>, all: set<T>, answer: seq<T>, numParents: map<T, int>,
                                    children: map<T, seq<T>>) {
    && numParents.Keys == (set x | x in all && FromCycle(EdgesOf(pairs), x))
    && TopologicalOrder(EdgesOf(pairs), all - numParents.Keys, answer)
    && CountTable(pairs, all, SetOf(answer), numParents)
    && ChildTable(pairs, SetOf(answer), children)
  }

  lemma StuckIsHeldBack<T(!new)>(pairs: seq<(T, T)>, all: set<T>, answer: seq<T>, numParents: map<T, int>,
                                 children: map<T, seq<T>>)
    requires Progress(pairs, all, SetOf(answer), numParents, children, answer)
    ensures HeldBack(pairs, all, answer, numParents, children)
    ensures numParents == map[] <==> Acyclic(EdgesOf(pairs))
    ensures numParents == map[] ==> TopologicalOrder(EdgesOf(pairs), all, answer)
  {
    LeftoverIsFromCycle(pairs, all, answer);
    var done := SetOf(answer);
    assert done == Free(pairs, all, done);
    assert all - numParents.Keys == done;
    assert numParents == map[] <==> all - done == {};
  }

  /** Sorts the elements of the pairs, or reports what is left when every remaining element waits for another. */
  method TopSort<T(==, !new)>(pairs: seq<(T, T)>) returns (r: SortResult<T>)
    ensures r.Sorted? <==> Acyclic(EdgesOf(pairs))
    ensures r.Sorted? ==> TopologicalOrder(EdgesOf(pairs), Elements(pairs), r.answer)
    ensures r.CycleError? ==> HeldBack(pairs, Elements(pairs), r.answer, r.numParents, r.children)
    ensures r.CycleError? ==> r.children.Keys == ParentsIn(pairs) - SetOf(r.answer)
  {
    var numParents, children := Tabulate(pairs);
    var answer := ZeroKeys(numParents);
    ParentlessIsOrdered(pairs, Elements(pairs), answer);
    numParents, children, answer := TakeOutAll(pairs, Elements(pairs), numParents, children, answer);
    StuckIsHeldBack(pairs, Elements(pairs), answer, numParents, children);
    if numParents != map[] {
      r := CycleError(answer, numParents, children);
    } else {
      r := Sorted(answer);
    }
  }

  // ---------------------------------------------------------------- topsort_levels

  /** There is a chain of n edges of ancestors ending at x. */
  ghost predicate HasChain<T(!new)>(es: set<(T, T)>, x: T, n: nat) {
    exists p :: Walk(es, p) && |p| == n + 1 && Last(p) == x
  }

  /** The longest chain of ancestors of x has k edges. */
  ghost predicate Depth<T(!new)>(es: set<(T, T)>, x: T, k: nat) {
    HasChain(es, x, k) && forall n: nat :: n > k ==> !HasChain(es, x, n)
  }

  ghost function AtDepth<T(!new)>(pairs: seq<(T, T)>, all: set<T>, k: nat): set<T> {
    set x | x in all && Depth(EdgesOf(pairs), x, k)
  }

  ghost function Flatten<T>(levels: seq<seq<T>>): seq<T> {
    if levels == [] then [] else Flatten(levels[..|levels| - 1]) + Last(levels)
  }

  lemma ShorterChain<T(!new)>(es: set<(T, T)>, x: T, n: nat, m: nat)
    requires HasChain(es, x, n) && m <= n
    ensures HasChain(es, x, m)
  {
    var p :| Walk(es, p) && |p| == n + 1 && Last(p) == x;
    SliceOfWalk(es, p, n - m, n + 1);
    assert Last(p[n - m..n + 1]) == x;
  }

  /** x has a chain of n + 1 edges exactly when some parent of it has one of n edges. */
  lemma ChainThroughParent<T(!new)>(es: set<(T, T)>, x: T, n: nat)
    ensures HasChain(es, x, n + 1) <==> exists u :: (u, x) in es && HasChain(es, u, n)
  {
    if HasChain(es, x, n + 1) {
      var p :| Walk(es, p) && |p| == n + 2 && Last(p) == x;
      SliceOfWalk(es, p, 0, n + 1);
      assert Last(p[0..n + 1]) == p[n] && (p[n], p[n + 1]) in es;
      assert HasChain(es, p[n], n);
    }
    if exists u :: (u, x) in es && HasChain(es, u, n) {
      var u :| (u, x) in es && HasChain(es, u, n);
      var q :| Walk(es, q) && |q| == n + 1 && Last(q) == u;
      AppendToWalk(es, q, x);
      assert Last(q + [x]) == x;
    }
  }

  lemma DepthIffChains<T(!new)>(es: set<(T, T)>, x: T, k: nat)
    ensures Depth(es, x, k) <==> HasChain(es, x, k) && !HasChain(es, x, k + 1)
  {
    forall n: nat | n > k && HasChain(es, x, n) ensures HasChain(es, x, k + 1) {
      ShorterChain(es, x, n, k + 1);
    }
  }

  /** `done` is what k rounds have taken out: the elements without a chain of k edges. */
  ghost predicate Rounds<T(!new)>(pairs: seq<(T, T)>, all: set<T>, done: set<T>, k: nat) {
    done == set x | x in all && !HasChain(EdgesOf(pairs), x, k)
  }

  /** The elements a round takes out are exactly those whose longest chain has k edges. */
  lemma RoundTakesDepth<T(!new)>(pairs: seq<(T, T)>, all: set<T>, done: set<T>, k: nat)
    requires Elements(pairs) <= all && Rounds(pairs, all, done, k)
    ensures Free(pairs, all, done) - done == AtDepth(pairs, all, k)
    ensures done <= Free(pairs, all, done)
    ensures Rounds(pairs, all, Free(pairs, all, done), k + 1)
  {
    var es := EdgesOf(pairs);
    forall x | x in all
      ensures x in Free(pairs, all, done) <==> !HasChain(es, x, k + 1)
      ensures x in done ==> x in Free(pairs, all, done)
      ensures Depth(es, x, k) <==> HasChain(es, x, k) && !HasChain(es, x, k + 1)
    {
      ParentCountZero(pairs, done, x);
      ChainThroughParent(es, x, k);
      DepthIffChains(es, x, k);
      if HasChain(es, x, k + 1) {
        ShorterChain(es, x, k + 1, k);
        var u :| (u, x) in es && HasChain(es, u, k);
        assert (u, x) in pairs && u !in done;
      }
    }
  }

  /** Lowers the count of each child of a parent that has just been taken out. */
  method KnockDown<T(==, !new)>(ghost pairs: seq<(T, T)>, ghost all: set<T>, ghost done: set<T>, ghost parent: T,
                                cs: seq<T>,
                                numParents0: map<T, int>)
    returns (numParents: map<T, int>)
    requires Ready(pairs, all, done, parent, cs) && MidCounts(pairs, all, done, parent, cs, 0, numParents0)
    ensures CountTable(pairs, all, done + {parent}, numParents)
  {
    numParents := numParents0;
    for k := 0 to |cs|
      invariant MidCounts(pairs, all, done, parent, cs, k, numParents)
    {
      MidCountsStep(pairs, all, done, parent, cs, k, numParents);
      numParents := numParents[cs[k] := numParents[cs[k]] - 1];
    }
    MidCountsEnd(pairs, all, done, parent, cs, numParents);
  }

  /** Takes a whole level out of the tables. */
  method TakeOutLevel<T(==, !new)>(ghost pairs: seq<(T, T)>, ghost all: set<T>, ghost done: set<T>, level: seq<T>,
                                   numParents0: map<T, int>, children0: map<T, seq<T>>)
    returns (numParents: map<T, int>, children: map<T, seq<T>>)
    requires CountTable(pairs, all, done, numParents0) && ChildTable(pairs, done, children0)
    requires Distinct(level) && SetOf(level) == Free(pairs, all, done) - done && done <= Free(pairs, all, done)
    ensures CountTable(pairs, all, Free(pairs, all, done), numParents) &&
      ChildTable(pairs, Free(pairs, all, done), children)
    ensures children.Keys == children0.Keys - Free(pairs, all, done)
  {
    numParents, children := numParents0, children0;
    ghost var out := done;
    for j := 0 to |level|
      invariant out == done + SetOf(level[..j])
      invariant CountTable(pairs, all, out, numParents) && ChildTable(pairs, out, children)
      invariant children.Keys == children0.Keys - out
    {
      var parent := level[j];
      assert parent in SetOf(level) && parent !in level[..j];
      FreeGrows(pairs, all, done, out);
      assert SetOf(level[..j]) <= SetOf(level);
      numParents := numParents - {parent};
      if parent in children {
        numParents := KnockDown(pairs, all, out, parent, children[parent], numParents);
        children := children - {parent};
      } else {
        ChildlessReleasesNothing(pairs, all, out, parent);
      }
      PrefixGrows(level, level, j);
      out := out + {parent};
    }
    assert level[..|level|] == level;
    assert out == Free(pairs, all, done);
  }

  /** The levels so far: level k holds exactly the elements of depth k, each once, and the levels run
      together list what has been taken out, parents first. */
  ghost predicate Levelled<T(!new)>(pairs: seq<(T, T)>, all: set<T>, levels: seq<seq<T>>) {
    && (forall k :: 0 <= k < |levels| ==> levels[k] != [] && SetOf(levels[k]) == AtDepth(pairs, all, k))
    && Distinct(Flatten(levels))
    && ParentsFirst(EdgesOf(pairs), Flatten(levels))
  }

  lemma ParentsFirstExtend<T>(pairs: seq<(T, T)>, all: set<T>, a: seq<T>, b: seq<T>)
    requires ParentsFirst(EdgesOf(pairs), a)
    requires SetOf(b) <= Free(pairs, all, SetOf(a))
    ensures ParentsFirst(EdgesOf(pairs), a + b)
  {
    var c := a + b;
    forall e, j | e in EdgesOf(pairs) && 0 <= j < |c| && c[j] == e.1 ensures e.0 in c[..j] {
      if j < |a| {
        assert a[j] == e.1 && c[..j] == a[..j];
      } else {
        assert b[j - |a|] in SetOf(b);
        ParentCountZero(pairs, SetOf(a), e.1);
        assert e.0 in SetOf(a);
        assert c[..j] == a + b[..j - |a|];
      }
    }
  }

  lemma FlattenAppend<T>(levels: seq<seq<T>>, level: seq<T>)
    ensures Flatten(levels + [level]) == Flatten(levels) + level
  {
    assert (levels + [level])[..|levels|] == levels;
  }

  lemma LevelAppended<T>(a: seq<T>, b: seq<T>)
    requires Distinct(a) && Distinct(b) && SetOf(a) !! SetOf(b)
    ensures Distinct(a + b) && SetOf(a + b) == SetOf(a) + SetOf(b)
  {
    forall x | x in a ensures x !in b {
      assert x in SetOf(a) && (x in b ==> x in SetOf(b));
    }
    DistinctAppend(a, b);
  }

  lemma LevelledAppend<T(!new)>(pairs: seq<(T, T)>, all: set<T>, levels: seq<seq<T>>, level: seq<T>)
    requires Elements(pairs) <= all && Levelled(pairs, all, levels)
    requires Rounds(pairs, all, SetOf(Flatten(levels)), |levels|)
    requires Distinct(level) && level != []
    requires SetOf(level) == Free(pairs, all, SetOf(Flatten(levels))) - SetOf(Flatten(levels))
    ensures Levelled(pairs, all, levels + [level])
    ensures SetOf(Flatten(levels + [level])) == Free(pairs, all, SetOf(Flatten(levels)))
  {
    var flat := Flatten(levels);
    RoundTakesDepth(pairs, all, SetOf(flat), |levels|);
    FlattenAppend(levels, level);
    LevelAppended(flat, level);
    ParentsFirstExtend(pairs, all, flat, level);
    SetPlusRest(SetOf(flat), Free(pairs, all, SetOf(flat)));
  }

  lemma SetPlusRest<T>(a: set<T>, b: set<T>)
    requires a <= b
    ensures a + (b - a) == b
  {
  }

  lemma ZerosAreFree<T>(pairs: seq<(T, T)>, all: set<T>, done: set<T>, numParents: map<T, int>)
    requires CountTable(pairs, all, done, numParents)
    ensures (set x | x in numParents && numParents[x] == 0) == Free(pairs, all, done) - done
    ensures Free(pairs, all, done) - done == {} && done <= Free(pairs, all, done) ==> Free(pairs, all, done) == done
  {
    var free := Free(pairs, all, done);
    if free - done == {} && done <= free {
      forall x | x in free ensures x in done {
        assert x !in free - done;
      }
    }
  }

  /** Yields the levels one by one until no element is without parents. */
  method TopSortLevelsCore<T(==, !new)>(ghost pairs: seq<(T, T)>, ghost all: set<T>, numParents0: map<T, int>,
                                        children0: map<T, seq<T>>)
    returns (levels: seq<seq<T>>, end: LevelsEnd<T>)
    requires CountTable(pairs, all, {}, numParents0) && ChildTable(pairs, {}, children0)
    ensures Levelled(pairs, all, levels)
    ensures end.StopIteration? <==> Acyclic(EdgesOf(pairs))
    ensures end.StopIteration? ==> TopologicalOrder(EdgesOf(pairs), all, Flatten(levels))
    ensures end.LevelsCycleError? ==> HeldBack(pairs, all, Flatten(levels), end.numParents, end.children)
    ensures end.LevelsCycleError? ==> end.children.Keys == children0.Keys - SetOf(Flatten(levels))
  {
    levels := [];
    var numParents, children := numParents0, children0;
    ghost var done: set<T> := {};
    NoRounds(pairs, all);
    while true
      invariant Levelled(pairs, all, levels) && done == SetOf(Flatten(levels)) && Rounds(pairs, all, done, |levels|)
      invariant CountTable(pairs, all, done, numParents) && ChildTable(pairs, done, children)
      invariant children.Keys == children0.Keys - done
      decreases all - done
    {
      RoundTakesDepth(pairs, all, done, |levels|);
      ZerosAreFree(pairs, all, done, numParents);
      var levelParents := ZeroKeys(numParents);
      if levelParents == [] {
        break;
      }
      LevelledAppend(pairs, all, levels, levelParents);
      assert levelParents[0] in SetOf(levelParents);
      levels := levels + [levelParents];
      numParents, children := TakeOutLevel(pairs, all, done, levelParents, numParents, children);
      done := Free(pairs, all, done);
    }
    StuckIsHeldBack(pairs, all, Flatten(levels), numParents, children);
    end := if numParents != map[] then LevelsCycleError(numParents, children) else StopIteration;
  }

  lemma NoRounds<T(!new)>(pairs: seq<(T, T)>, all: set<T>)
    ensures Rounds(pairs, all, {}, 0)
  {
    forall x ensures HasChain(EdgesOf(pairs), x, 0) {
      assert Walk(EdgesOf(pairs), [x]) && Last([x]) == x;
    }
  }

  /** Sorts the elements of the pairs into levels of equal depth. */
  method TopSortLevels<T(==, !new)>(pairs: seq<(T, T)>) returns (levels: seq<seq<T>>, end: LevelsEnd<T>)
    ensures Levelled(pairs, Elements(pairs), levels)
    ensures end.StopIteration? <==> Acyclic(EdgesOf(pairs))
    ensures end.StopIteration? ==> TopologicalOrder(EdgesOf(pairs), Elements(pairs), Flatten(levels))
    ensures end.LevelsCycleError? ==> HeldBack(pairs, Elements(pairs), Flatten(levels), end.numParents, end.children)
    ensures end.LevelsCycleError? ==> end.children.Keys == ParentsIn(pairs) - SetOf(Flatten(levels))
  {
    var numParents, children := Tabulate(pairs);
    levels, end := TopSortLevelsCore(pairs, Elements(pairs), numParents, children);
  }
}
