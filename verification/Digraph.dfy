/** Walks, cycles and topological orders of a finite directed graph given as a set of edges. */
module Digraph {

  /** A nonempty sequence of elements, each joined to the next by an edge. */
  ghost predicate Walk<T>(es: set<(T, T)>, p: seq<T>) {
    |p| >= 1 && forall i :: 0 <= i < |p| - 1 ==> (p[i], p[i + 1]) in es
  }

  ghost predicate Distinct<T>(s: seq<T>) {
    forall i, j :: 0 <= i < j < |s| ==> s[i] != s[j]
  }

  function Last<T>(p: seq<T>): T
    requires |p| >= 1
  {
    p[|p| - 1]
  }

  /** A walk of at least one edge that returns to where it started. */
  ghost predicate ClosedWalk<T>(es: set<(T, T)>, p: seq<T>) {
    Walk(es, p) && |p| >= 2 && p[0] == Last(p)
  }

  ghost predicate Acyclic<T(!new)>(es: set<(T, T)>) {
    forall p :: !ClosedWalk(es, p)
  }

  ghost predicate OnCycle<T(!new)>(es: set<(T, T)>, x: T) {
    exists p :: ClosedWalk(es, p) && p[0] == x
  }

  /** x lies on a cycle or can be reached from one. */
  ghost predicate FromCycle<T(!new)>(es: set<(T, T)>, x: T) {
    exists p :: Walk(es, p) && OnCycle(es, p[0]) && Last(p) == x
  }

  /** A cycle written without repeating its first element; the last element has the first as a child. */
  ghost predicate SimpleCycle<T>(es: set<(T, T)>, c: seq<T>) {
    Walk(es, c) && Distinct(c) && (Last(c), c[0]) in es
  }

  /** b is a with its first k elements moved to the end, for some k. */
  ghost predicate IsRotation<T>(a: seq<T>, b: seq<T>) {
    exists k :: 0 <= k < |a| && a[k..] + a[..k] == b
  }

  /** Every parent of an element of a occurs in a, strictly before that element. */
  ghost predicate ParentsFirst<T>(es: set<(T, T)>, a: seq<T>) {
    forall e, j :: e in es && 0 <= j < |a| && a[j] == e.1 ==> e.0 in a[..j]
  }

  /** A listing of exactly the given elements, each once, parents strictly before children. */
  ghost predicate TopologicalOrder<T>(es: set<(T, T)>, elements: set<T>, a: seq<T>) {
    Distinct(a) && (set x | x in a) == elements && ParentsFirst(es, a)
  }

  lemma DistinctAppend<T>(a: seq<T>, b: seq<T>)
    requires Distinct(a) && Distinct(b) && forall x :: x in a ==> x !in b
    ensures Distinct(a + b)
  {
    var c := a + b;
    forall i, j | 0 <= i < j < |c| ensures c[i] != c[j] {
      if i < |a| <= j {
        assert c[i] in a && c[j] == b[j - |a|] && c[j] in b;
      }
    }
  }

  // ---------------------------------------------------------------- walks

  lemma PrependToWalk<T>(es: set<(T, T)>, x: T, p: seq<T>)
    requires Walk(es, p) && (x, p[0]) in es
    ensures Walk(es, [x] + p)
  {
    var q := [x] + p;
    forall i | 0 <= i < |q| - 1 ensures (q[i], q[i + 1]) in es {
      if i > 0 {
        assert q[i] == p[i - 1] && q[i + 1] == p[i - 1 + 1];
      }
    }
  }

  lemma AppendToWalk<T>(es: set<(T, T)>, p: seq<T>, x: T)
    requires Walk(es, p) && (Last(p), x) in es
    ensures Walk(es, p + [x])
  {
    var q := p + [x];
    forall i | 0 <= i < |q| - 1 ensures (q[i], q[i + 1]) in es {
      if i < |p| - 1 {
        assert q[i] == p[i] && q[i + 1] == p[i + 1];
      }
    }
  }

  lemma SliceOfWalk<T>(es: set<(T, T)>, p: seq<T>, lo: nat, hi: nat)
    requires Walk(es, p) && lo < hi <= |p|
    ensures Walk(es, p[lo..hi])
  {
    var q := p[lo..hi];
    forall i | 0 <= i < |q| - 1 ensures (q[i], q[i + 1]) in es {
      assert q[i] == p[lo + i] && q[i + 1] == p[lo + i + 1];
    }
  }

  lemma JoinWalks<T>(es: set<(T, T)>, p: seq<T>, q: seq<T>)
    requires Walk(es, p) && Walk(es, q) && (Last(p), q[0]) in es
    ensures Walk(es, p + q)
  {
    var r := p + q;
    forall i | 0 <= i < |r| - 1 ensures (r[i], r[i + 1]) in es {
      if i < |p| - 1 {
        assert r[i] == p[i] && r[i + 1] == p[i + 1];
      } else if i >= |p| {
        assert r[i] == q[i - |p|] && r[i + 1] == q[i - |p| + 1];
      }
    }
  }

  // ---------------------------------------------------------------- cycles

  ghost predicate HasParentIn<T>(es: set<(T, T)>, s: set<T>, y: T) {
    exists u :: u in s && (u, y) in es
  }

  lemma ReturningPrefixIsClosed<T(!new)>(es: set<(T, T)>, q: seq<T>, k: nat)
    requires Walk(es, q) && 1 <= k < |q| && q[k] == q[0]
    ensures OnCycle(es, q[0])
  {
    SliceOfWalk(es, q, 0, k + 1);
    assert ClosedWalk(es, q[0..k + 1]);
  }

  /** When every member of a finite set has a parent in the set, following parents backwards must
      repeat, so every member is on a cycle or reachable from one. */
  lemma {:induction false} ParentClosedMeansFromCycle<T(!new)>(
      es: set<(T, T)>, s: set<T>, p: seq<T>, unseen: set<T>)
    requires forall y :: y in s ==> HasParentIn(es, s, y)
    requires Walk(es, p) && p[0] in s
    requires forall y :: y in s ==> y in p || y in unseen
    ensures FromCycle(es, Last(p))
    decreases unseen
  {
    var u :| u in s && (u, p[0]) in es;
    var q := [u] + p;
    PrependToWalk(es, u, p);
    assert q[0] == u && Last(q) == Last(p);
    if u in p {
      var i :| 0 <= i < |p| && p[i] == u;
      ReturningPrefixIsClosed(es, q, i + 1);
    } else {
      forall y | y in s ensures y in q || y in unseen - {u} {
        assert y in p ==> y in q;
      }
      ParentClosedMeansFromCycle(es, s, q, unseen - {u});
    }
  }

  /** A walk into a parents-first listing lies wholly inside it, its positions increasing. */
  lemma {:induction false} WalkIntoOrder<T>(es: set<(T, T)>, a: seq<T>, p: seq<T>, j: nat) returns (i: nat)
    requires ParentsFirst(es, a) && Walk(es, p)
    requires j < |a| && a[j] == Last(p)
    ensures i + |p| - 1 <= j && a[i] == p[0]
    decreases |p|
  {
    if |p| == 1 {
      i := j;
    } else {
      var e := (p[|p| - 2], p[|p| - 2 + 1]);
      assert e in es && e.1 == a[j];
      assert e.0 in a[..j];
      var k :| 0 <= k < j && a[..j][k] == e.0;
      SliceOfWalk(es, p, 0, |p| - 1);
      i := WalkIntoOrder(es, a, p[0..|p| - 1], k);
    }
  }

  /** Nothing in a parents-first listing without repetition is on, or reachable from, a cycle. */
  lemma OrderedMeansNotFromCycle<T(!new)>(es: set<(T, T)>, a: seq<T>, x: T)
    requires Distinct(a) && ParentsFirst(es, a) && x in a
    ensures !FromCycle(es, x)
  {
    if FromCycle(es, x) {
      var p :| Walk(es, p) && OnCycle(es, p[0]) && Last(p) == x;
      var j :| 0 <= j < |a| && a[j] == x;
      var i := WalkIntoOrder(es, a, p, j);
      var c :| ClosedWalk(es, c) && c[0] == p[0];
      var k := WalkIntoOrder(es, a, c, i);
      assert false;
    }
  }

  /** A closed walk exists exactly when something is on a cycle. */
  lemma AcyclicIffNoneFromCycle<T(!new)>(es: set<(T, T)>)
    ensures Acyclic(es) <==> forall x :: !FromCycle(es, x)
  {
    if !Acyclic(es) {
      var p :| ClosedWalk(es, p);
      assert Walk(es, p[0..1]) && OnCycle(es, p[0..1][0]) && Last(p[0..1]) == p[0];
      assert FromCycle(es, p[0]);
    }
    if exists x :: FromCycle(es, x) {
      var x :| FromCycle(es, x);
      var p :| Walk(es, p) && OnCycle(es, p[0]) && Last(p) == x;
      var c :| ClosedWalk(es, c) && c[0] == p[0];
      assert !Acyclic(es);
    }
  }

  /** Every closed walk contains a cycle that repeats no element. */
  lemma {:induction false} ClosedWalkHoldsSimpleCycle<T(!new)>(es: set<(T, T)>, p: seq<T>) returns (c: seq<T>)
    requires ClosedWalk(es, p)
    ensures SimpleCycle(es, c) && forall x :: x in c ==> x in p
    decreases |p|
  {
    var n := |p| - 1;
    c := p[0..n];
    SliceOfWalk(es, p, 0, n);
    assert (p[n - 1], p[n - 1 + 1]) in es;
    if !Distinct(c) {
      var i, j :| 0 <= i < j < |c| && c[i] == c[j];
      var q := p[i..j + 1];
      SliceOfWalk(es, p, i, j + 1);
      assert q[0] == p[i] && Last(q) == p[j];
      c := ClosedWalkHoldsSimpleCycle(es, q);
    }
  }
}
