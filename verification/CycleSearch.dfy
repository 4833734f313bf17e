/** find_cycles of bindings/python/topsort.py and is_rotated of bindings/python/rad_util.py. */
module CycleSearch {
  import opened Dictionary
  import opened Digraph

  // ---------------------------------------------------------------- is_rotated

  datatype Truth = Is(value: bool) | IndexError

  /** Decides whether one sequence is a rotation of the other; two empty sequences are an index error. */
  method IsRotated<T(==)>(seq1: seq<T>, seq2: seq<T>) returns (r: Truth)
    ensures r.IndexError? <==> seq1 == [] && seq2 == []
    ensures r.Is? ==> (r.value <==> IsRotation(seq1, seq2))
  {
    if |seq1| != |seq2| {
      return Is(false);
    }
    if seq2 == [] {
      return IndexError;
    }
    var startIndexes: seq<nat> := [];
    var headItem := seq2[0];
    for index1 := 0 to |seq1|
      invariant forall k :: k in startIndexes <==> 0 <= k < index1 && seq1[k] == headItem
    {
      if seq1[index1] == headItem {
        startIndexes := startIndexes + [index1];
      }
    }
    var doubleSeq1 := seq1 + seq1;
    assert forall m :: 0 <= m < |startIndexes| ==> startIndexes[m] in startIndexes;
    for j := 0 to |startIndexes|
      invariant forall m :: 0 <= m < j ==> seq1[startIndexes[m]..] + seq1[..startIndexes[m]] != seq2
    {
      var index1 := startIndexes[j];
      assert doubleSeq1[index1..index1 + |seq1|] == seq1[index1..] + seq1[..index1];
      if doubleSeq1[index1..index1 + |seq1|] == seq2 {
        return Is(true);
      }
    }
    return Is(false);
  }

  // ---------------------------------------------------------------- the graph and its simple paths

  /** The children recorded for x; an element without an entry has none. */
  function ChildrenOf<T(==)>(graph: map<T, seq<T>>, x: T): seq<T> {
    if x in graph then graph[x] else []
  }

  ghost function GraphEdges<T(!new)>(graph: map<T, seq<T>>): set<(T, T)> {
    set u, v | u in graph && v in graph[u] :: (u, v)
  }

  ghost function Nodes<T(!new)>(graph: map<T, seq<T>>): set<T> {
    graph.Keys + set u, v | u in graph && v in graph[u] :: v
  }

  ghost function Unvisited<T(!new)>(graph: map<T, seq<T>>, path: seq<T>): set<T> {
    set x | x in Nodes(graph) && x !in path
  }

  /** The one-step continuations of a path through children not already on it, in child order. */
  ghost function Extensions<T>(cs: seq<T>, path: seq<T>): seq<seq<T>> {
    if cs == [] then [] else
      Extensions(cs[..|cs| - 1], path) + if Last(cs) in path then [] else [path + [Last(cs)]]
  }

  ghost predicate SimplePath<T(!new)>(graph: map<T, seq<T>>, path: seq<T>) {
    Walk(GraphEdges(graph), path) && Distinct(path) && forall x :: x in path ==> x in Nodes(graph)
  }

  lemma ExtensionIsSimple<T(!new)>(graph: map<T, seq<T>>, path: seq<T>, c: T)
    requires SimplePath(graph, path) && c in ChildrenOf(graph, Last(path)) && c !in path
    ensures SimplePath(graph, path + [c])
    ensures Unvisited(graph, path + [c]) < Unvisited(graph, path)
  {
    assert (Last(path), c) in GraphEdges(graph);
    AppendToWalk(GraphEdges(graph), path, c);
    assert c in Unvisited(graph, path);
    assert c in path + [c];
    assert forall x :: x in Unvisited(graph, path + [c]) ==> x !in path + [c];
    assert forall x :: x in path ==> x in path + [c];
  }

  /** The number of paths the search below one stacked path will pop, itself included. */
  ghost function Weight<T(!new)>(graph: map<T, seq<T>>, path: seq<T>): nat
    requires SimplePath(graph, path)
    decreases Unvisited(graph, path), 1, 0
  {
    1 + ExtensionsWeight(graph, path, ChildrenOf(graph, Last(path)))
  }

  ghost function ExtensionsWeight<T(!new)>(graph: map<T, seq<T>>, path: seq<T>, cs: seq<T>): nat
    requires SimplePath(graph, path)
    requires forall c :: c in cs ==> c in ChildrenOf(graph, Last(path))
    decreases Unvisited(graph, path), 0, |cs|
  {
    if cs == [] then 0 else
      ExtensionsWeight(graph, path, cs[..|cs| - 1]) +
      if Last(cs) in path then 0 else
        ExtensionIsSimple(graph, path, Last(cs));
        Weight(graph, path + [Last(cs)])
  }

  ghost predicate AllSimple<T(!new)>(graph: map<T, seq<T>>, paths: seq<seq<T>>) {
    forall i :: 0 <= i < |paths| ==> SimplePath(graph, paths[i])
  }

  ghost function StackWeight<T(!new)>(graph: map<T, seq<T>>, paths: seq<seq<T>>): nat
    requires AllSimple(graph, paths)
  {
    if paths == [] then 0 else
      StackWeight(graph, paths[..|paths| - 1]) + Weight(graph, Last(paths))
  }

  // ---------------------------------------------------------------- find_cycles

  /** Some recorded cycle is a rotation of c. */
  ghost predicate Covered<T>(cycles: seq<seq<T>>, c: seq<T>) {
    exists i :: 0 <= i < |cycles| && IsRotation(cycles[i], c)
  }

  /** Only simple cycles of the graph, no two of them rotations of each other. */
  ghost predicate GoodCycles<T(!new)>(graph: map<T, seq<T>>, cycles: seq<seq<T>>) {
    && (forall i :: 0 <= i < |cycles| ==> SimpleCycle(GraphEdges(graph), cycles[i]))
    && (forall i, j :: 0 <= i < j < |cycles| ==> !IsRotation(cycles[i], cycles[j]))
  }

  /** Position of the first occurrence. */
  function IndexOf<T(==)>(path: seq<T>, x: T): (i: nat)
    requires x in path
    ensures i < |path| && path[i] == x && x !in path[..i]
  {
    if path[0] == x then 0 else
      assert path == [path[0]] + path[1..];
      var i := 1 + IndexOf(path[1..], x);
      assert path[..i] == [path[0]] + path[1..][..i - 1];
      i
  }

  lemma PathTailIsCycle<T(!new)>(graph: map<T, seq<T>>, path: seq<T>, child: T)
    requires SimplePath(graph, path) && child in path && child in ChildrenOf(graph, Last(path))
    ensures SimpleCycle(GraphEdges(graph), path[IndexOf(path, child)..])
  {
    var i := IndexOf(path, child);
    SliceOfWalk(GraphEdges(graph), path, i, |path|);
    assert path[i..] == path[i..|path|];
    assert (Last(path), child) in GraphEdges(graph);
  }

  /** Appends the cycle unless a rotation of it is already recorded. */
  method RecordCycle<T(==, !new)>(ghost graph: map<T, seq<T>>, cycles0: seq<seq<T>>, cycle: seq<T>)
    returns (cycles: seq<seq<T>>)
    requires GoodCycles(graph, cycles0) && SimpleCycle(GraphEdges(graph), cycle)
    ensures cycles == if Covered(cycles0, cycle) then cycles0 else cycles0 + [cycle]
    ensures GoodCycles(graph, cycles) && Covered(cycles, cycle)
  {
    cycles := cycles0;
    var isDup := false;
    for i := 0 to |cycles|
      invariant !isDup && forall j :: 0 <= j < i ==> !IsRotation(cycles[j], cycle)
    {
      var rotated := IsRotated(cycles[i], cycle);
      if rotated.value {
        isDup := true;
        break;
      }
    }
    if !isDup {
      assert !Covered(cycles, cycle);
      cycles := cycles + [cycle];
      assert cycle[0..] + cycle[..0] == cycle;
      assert IsRotation(cycles[|cycles| - 1], cycle);
    }
  }

  /** One child of the path's last element: either it closes a recorded cycle or its continuation is known. */
  ghost predicate ChildSettled<T>(cycles: seq<seq<T>>, known: set<seq<T>>, path: seq<T>, c: T) {
    if c in path then Covered(cycles, path[IndexOf(path, c)..]) else path + [c] in known
  }

  ghost predicate Settled<T(!new)>(graph: map<T, seq<T>>, cycles: seq<seq<T>>, known: set<seq<T>>, path: seq<T>) {
    |path| > 0 && forall c :: c in ChildrenOf(graph, Last(path)) ==> ChildSettled(cycles, known, path, c)
  }

  ghost function PathsOf<T>(paths: seq<seq<T>>): set<seq<T>> {
    set p | p in paths
  }

  lemma CoveredKept<T>(before: seq<seq<T>>, after: seq<seq<T>>, c: seq<T>)
    requires before <= after && Covered(before, c)
    ensures Covered(after, c)
  {
    var i :| 0 <= i < |before| && IsRotation(before[i], c);
    assert after[i] == before[i];
  }

  /** The state after the first k children of a popped path. */
  ghost predicate Visited<T(!new)>(graph: map<T, seq<T>>, path: seq<T>, cs: seq<T>, cycles: seq<seq<T>>,
                                   paths0: seq<seq<T>>, paths: seq<seq<T>>, visited0: set<T>, visited: set<T>) {
    && GoodCycles(graph, cycles)
    && paths == paths0 + Extensions(cs, path)
    && visited == visited0 + (set c | c in cs && c !in path)
    && forall c :: c in cs ==> ChildSettled(cycles, PathsOf(paths), path, c)
  }

  lemma SettledWithMore<T>(before: seq<seq<T>>, after: seq<seq<T>>, known: set<seq<T>>, known': set<seq<T>>,
                           path: seq<T>, c: T)
    requires ChildSettled(before, known, path, c) && before <= after && known <= known'
    ensures ChildSettled(after, known', path, c)
  {
    if c in path {
      CoveredKept(before, after, path[IndexOf(path, c)..]);
    }
  }

  lemma VisitOneMore<T(!new)>(graph: map<T, seq<T>>, path: seq<T>, cs: seq<T>, child: T,
                              cycles: seq<seq<T>>, cycles': seq<seq<T>>, paths0: seq<seq<T>>, paths: seq<seq<T>>,
                              visited0: set<T>, visited: set<T>)
    requires Visited(graph, path, cs, cycles, paths0, paths, visited0, visited)
    requires GoodCycles(graph, cycles') && cycles <= cycles'
    requires child in path ==> Covered(cycles', path[IndexOf(path, child)..])
    ensures Visited(graph, path, cs + [child], cycles', paths0,
      if child in path then paths else paths + [path + [child]],
                    visited0, if child in path then visited else visited + {child})
  {
    var paths' := if child in path then paths else paths + [path + [child]];
    assert (cs + [child])[..|cs|] == cs;
    assert paths' == paths0 + Extensions(cs + [child], path);
    assert PathsOf(paths) <= PathsOf(paths');
    forall c | c in cs + [child] ensures ChildSettled(cycles', PathsOf(paths'), path, c) {
      if c in cs {
        SettledWithMore(cycles, cycles', PathsOf(paths), PathsOf(paths'), path, c);
      } else if c !in path {
        assert path + [child] in paths';
      }
    }
  }

  /** One child of a popped path: it closes a cycle, or continues the path on the stack. */
  method VisitChild<T(==, !new)>(ghost graph: map<T, seq<T>>, path: seq<T>, ghost cs: seq<T>, child: T,
                                 cycles0: seq<seq<T>>, ghost bottom: seq<seq<T>>, paths0: seq<seq<T>>,
                                 ghost seen: set<T>, visited0: set<T>)
    returns (cycles: seq<seq<T>>, paths: seq<seq<T>>, visited: set<T>)
    requires SimplePath(graph, path) && child in ChildrenOf(graph, Last(path))
    requires Visited(graph, path, cs, cycles0, bottom, paths0, seen, visited0)
    ensures cycles0 <= cycles && Visited(graph, path, cs + [child], cycles, bottom, paths, seen, visited)
  {
    cycles, paths, visited := cycles0, paths0, visited0;
    if child in path {
      PathTailIsCycle(graph, path, child);
      cycles := RecordCycle(graph, cycles, path[IndexOf(path, child)..]);
    } else {
      paths := paths + [path + [child]];
      visited := visited + {child};
    }
    VisitOneMore(graph, path, cs, child, cycles0, cycles, bottom, paths0, seen, visited0);
  }

  /** The children of one popped path, in order. */
  method VisitChildren<T(==, !new)>(ghost graph: map<T, seq<T>>, path: seq<T>, children: seq<T>,
                                    cycles0: seq<seq<T>>, paths0: seq<seq<T>>, visited0: set<T>)
    returns (cycles: seq<seq<T>>, paths: seq<seq<T>>, visited: set<T>)
    requires SimplePath(graph, path) && children == ChildrenOf(graph, Last(path))
    requires GoodCycles(graph, cycles0)
    ensures cycles0 <= cycles && Visited(graph, path, children, cycles, paths0, paths, visited0, visited)
  {
    cycles, paths, visited := cycles0, paths0, visited0;
    assert visited0 == visited0 + set c | c in children[..0] && c !in path;
    for k := 0 to |children|
      invariant cycles0 <= cycles && Visited(graph, path, children[..k], cycles, paths0, paths, visited0, visited)
    {
      assert children[..k + 1] == children[..k] + [children[k]];
      cycles, paths, visited :=
        VisitChild(graph, path, children[..k], children[k], cycles, paths0, paths, visited0, visited);
    }
    assert children[..|children|] == children;
  }

  // ---------------------------------------------------------------- rotations

  lemma RotationTwice<T>(a: seq<T>, j: nat, m: nat)
    requires j < |a| && m < |a|
    ensures var x := a[j..] + a[..j]; IsRotation(a, x[m..] + x[..m])
  {
    var n, x := |a|, a[j..] + a[..j];
    var y := x[m..] + x[..m];
    if j + m < n {
      assert y == a[j + m..] + a[..j + m];
    } else {
      var k := j + m - n;
      assert y == a[k..] + a[..k];
    }
  }

  lemma RotationBack<T>(c: seq<T>, k: nat)
    requires k < |c|
    ensures IsRotation(c[k..] + c[..k], c)
  {
    var n, x := |c|, c[k..] + c[..k];
    if k == 0 {
      assert x[0..] + x[..0] == c;
    } else {
      assert x[n - k..] + x[..n - k] == c;
    }
  }

  lemma RotationTransitive<T>(a: seq<T>, b: seq<T>, c: seq<T>)
    requires IsRotation(a, b) && IsRotation(b, c)
    ensures IsRotation(a, c)
  {
    var j :| 0 <= j < |a| && a[j..] + a[..j] == b;
    var m :| 0 <= m < |b| && b[m..] + b[..m] == c;
    RotationTwice(a, j, m);
  }

  lemma RotatedCycle<T(!new)>(es: set<(T, T)>, c: seq<T>, k: nat)
    requires SimpleCycle(es, c) && k < |c|
    ensures SimpleCycle(es, c[k..] + c[..k])
  {
    if k == 0 {
      assert c[0..] + c[..0] == c;
    } else {
      SliceOfWalk(es, c, k, |c|);
      SliceOfWalk(es, c, 0, k);
      assert c[k..|c|] == c[k..] && c[0..k] == c[..k];
      JoinWalks(es, c[k..], c[..k]);
      var x := c[k..] + c[..k];
      assert Last(x) == c[k - 1] && x[0] == c[k] && (c[k - 1], c[k - 1 + 1]) in es;
    }
  }

  // ---------------------------------------------------------------- termination and completeness

  lemma StackWeightPush<T(!new)>(graph: map<T, seq<T>>, stack: seq<seq<T>>, p: seq<T>)
    requires AllSimple(graph, stack) && SimplePath(graph, p)
    ensures AllSimple(graph, stack + [p]) &&
      StackWeight(graph, stack + [p]) == StackWeight(graph, stack) + Weight(graph, p)
  {
    assert (stack + [p])[..|stack|] == stack;
  }

  lemma {:induction false} StackWeightOfExtensions<T(!new)>(graph: map<T, seq<T>>, front: seq<seq<T>>, path: seq<T>,
                                                            cs: seq<T>)
    requires AllSimple(graph, front) && SimplePath(graph, path)
    requires forall c :: c in cs ==> c in ChildrenOf(graph, Last(path))
    ensures AllSimple(graph, front + Extensions(cs, path))
    ensures StackWeight(graph, front + Extensions(cs, path))
         == StackWeight(graph, front) + ExtensionsWeight(graph, path, cs)
    decreases |cs|
  {
    if cs == [] {
      assert front + Extensions(cs, path) == front;
    } else {
      var init, c := cs[..|cs| - 1], Last(cs);
      StackWeightOfExtensions(graph, front, path, init);
      var shorter := front + Extensions(init, path);
      if c in path {
        assert front + Extensions(cs, path) == shorter;
      } else {
        ExtensionIsSimple(graph, path, c);
        assert front + Extensions(cs, path) == shorter + [path + [c]];
        StackWeightPush(graph, shorter, path + [c]);
      }
    }
  }

  /** Replacing the path on top of the stack by its continuations leaves one path fewer to be popped. */
  lemma PopLowersWeight<T(!new)>(graph: map<T, seq<T>>, front: seq<seq<T>>, path: seq<T>)
    requires AllSimple(graph, front) && SimplePath(graph, path)
    ensures AllSimple(graph, front + [path]) &&
      AllSimple(graph, front + Extensions(ChildrenOf(graph, Last(path)), path))
    ensures StackWeight(graph, front + Extensions(ChildrenOf(graph, Last(path)), path)) + 1
         == StackWeight(graph, front + [path])
  {
    StackWeightPush(graph, front, path);
    StackWeightOfExtensions(graph, front, path, ChildrenOf(graph, Last(path)));
  }

  lemma {:induction false} ExtensionsHold<T>(cs: seq<T>, path: seq<T>, p: seq<T>)
    ensures p in Extensions(cs, path) <==> exists c :: c in cs && c !in path && p == path + [c]
  {
    if cs != [] {
      var init, c := cs[..|cs| - 1], Last(cs);
      ExtensionsHold(init, path, p);
      assert cs == init + [c];
    }
  }

  /** The search so far: every explored path is settled, each path's root is known, and every visited
      element ends a known path. */
  ghost predicate Searched<T(!new)>(graph: map<T, seq<T>>, cycles: seq<seq<T>>, explored: set<seq<T>>,
                                    stack: seq<seq<T>>, visited: set<T>) {
    var known := explored + PathsOf(stack);
    && GoodCycles(graph, cycles)
    && (forall p :: p in known ==> SimplePath(graph, p) && [p[0]] in known)
    && (forall p :: p in explored ==> Settled(graph, cycles, known, p))
    && (forall v :: v in visited ==> EndsKnownPath(known, v))
  }

  ghost predicate EndsKnownPath<T(!new)>(known: set<seq<T>>, v: T) {
    exists p :: p in known && |p| > 0 && Last(p) == v
  }

  lemma SettledKept<T(!new)>(graph: map<T, seq<T>>, cycles0: seq<seq<T>>, known0: set<seq<T>>,
                             cycles: seq<seq<T>>, known: set<seq<T>>, p: seq<T>)
    requires Settled(graph, cycles0, known0, p) && cycles0 <= cycles && known0 <= known
    ensures Settled(graph, cycles, known, p)
  {
    forall c | c in ChildrenOf(graph, Last(p)) ensures ChildSettled(cycles, known, p, c) {
      assert ChildSettled(cycles0, known0, p, c);
      if c in p {
        CoveredKept(cycles0, cycles, p[IndexOf(p, c)..]);
      }
    }
  }

  /** Popping a path and visiting its children keeps the state of the search. */
  lemma SearchStep<T(!new)>(graph: map<T, seq<T>>, explored: set<seq<T>>, front: seq<seq<T>>, path: seq<T>,
                            cycles0: seq<seq<T>>, visited0: set<T>,
                            cycles: seq<seq<T>>, stack: seq<seq<T>>, visited: set<T>)
    requires Searched(graph, cycles0, explored, front + [path], visited0)
    requires GoodCycles(graph, cycles) && cycles0 <= cycles
    requires SimplePath(graph, path) && stack == front + Extensions(ChildrenOf(graph, Last(path)), path)
    requires visited == visited0 + set c | c in ChildrenOf(graph, Last(path)) && c !in path
    requires Settled(graph, cycles, PathsOf(stack), path)
    ensures Searched(graph, cycles, explored + {path}, stack, visited)
  {
    var cs := ChildrenOf(graph, Last(path));
    var known0 := explored + PathsOf(front + [path]);
    var known := explored + {path} + PathsOf(stack);
    assert known0 <= known;
    assert path in known0;
    forall p | p in known ensures SimplePath(graph, p) && [p[0]] in known {
      if p !in known0 {
        ExtensionsHold(cs, path, p);
        var c :| c in cs && c !in path && p == path + [c];
        ExtensionIsSimple(graph, path, c);
        assert [path[0]] in known0;
      }
    }
    forall p | p in explored + {path} ensures Settled(graph, cycles, known, p) {
      if p == path {
        SettledKept(graph, cycles, PathsOf(stack), cycles, known, p);
      } else {
        SettledKept(graph, cycles0, known0, cycles, known, p);
      }
    }
    forall v | v in visited ensures EndsKnownPath(known, v) {
      if v in visited0 {
        assert EndsKnownPath(known0, v);
      } else {
        ExtensionsHold(cs, path, path + [v]);
        assert path + [v] in stack;
        assert Last(path + [v]) == v;
      }
    }
  }

  lemma PopPath<T(!new)>(graph: map<T, seq<T>>, paths: seq<seq<T>>, root: T)
    requires paths != [] && AllSimple(graph, paths)
    ensures paths == paths[..|paths| - 1] + [Last(paths)] && SimplePath(graph, Last(paths))
    ensures [root] in PathsOf(paths) ==> [root] == Last(paths) || [root] in PathsOf(paths[..|paths| - 1])
  {
  }

  /** Explores every simple path that starts at one root. */
  method ExploreRoot<T(==, !new)>(graph: map<T, seq<T>>, root: T, cycles0: seq<seq<T>>, visited0: set<T>,
                                  ghost explored0: set<seq<T>>)
    returns (cycles: seq<seq<T>>, visited: set<T>, ghost explored: set<seq<T>>)
    requires root in graph && Searched(graph, cycles0, explored0, [], visited0)
    ensures Searched(graph, cycles, explored, [], visited)
    ensures visited0 <= visited && explored0 + {[root]} <= explored
  {
    cycles, visited, explored := cycles0, visited0, explored0;
    var paths := [[root]];
    StartAtRoot(graph, root, cycles, explored, visited);
    while paths != []
      invariant Searched(graph, cycles, explored, paths, visited)
      invariant AllSimple(graph, paths)
      invariant visited0 <= visited && explored0 <= explored && [root] in explored + PathsOf(paths)
      decreases StackWeight(graph, paths)
    {
      var path := Last(paths);
      ghost var cyclesBefore, visitedBefore := cycles, visited;
      PopPath(graph, paths, root);
      paths := paths[..|paths| - 1];
      PopLowersWeight(graph, paths, path);
      ghost var front := paths;
      if Last(path) in graph {
        cycles, paths, visited := VisitChildren(graph, path, graph[Last(path)], cycles, paths, visited);
      } else {
        assert front + Extensions([], path) == front;
      }
      SearchStep(graph, explored, front, path, cyclesBefore, visitedBefore, cycles, paths, visited);
      explored := explored + {path};
    }
  }

  lemma StartAtRoot<T(!new)>(graph: map<T, seq<T>>, root: T, cycles: seq<seq<T>>, explored: set<seq<T>>,
                             visited: set<T>)
    requires root in graph && Searched(graph, cycles, explored, [], visited)
    ensures Searched(graph, cycles, explored, [[root]], visited) && SimplePath(graph, [root])
  {
    var known0, known := explored + PathsOf([]), explored + PathsOf([[root]]);
    assert [root] in PathsOf([[root]]);
    assert SimplePath(graph, [root]);
    forall p | p in explored ensures Settled(graph, cycles, known, p) {
      SettledKept(graph, cycles, known0, cycles, known, p);
    }
    forall v | v in visited ensures EndsKnownPath(known, v) {
      assert EndsKnownPath(known0, v);
    }
  }

  /** With nothing left on the stack, every simple path from a known root has been explored. */
  lemma {:induction false} SimplePathsExplored<T(!new)>(graph: map<T, seq<T>>, cycles: seq<seq<T>>,
                                                        explored: set<seq<T>>, visited: set<T>, p: seq<T>)
    requires Searched(graph, cycles, explored, [], visited)
    requires SimplePath(graph, p) && [p[0]] in explored
    ensures p in explored
    decreases |p|
  {
    var n := |p| - 1;
    if n == 0 {
      assert p == [p[0]];
    } else {
      var front := p[..n];
      SliceOfWalk(GraphEdges(graph), p, 0, n);
      assert p[0..n] == front;
      SimplePathsExplored(graph, cycles, explored, visited, front);
      assert (p[n - 1], p[n - 1 + 1]) in GraphEdges(graph);
      assert p == front + [p[n]];
      assert ChildSettled(cycles, explored + PathsOf([]), front, p[n]);
    }
  }

  /** A simple path into a cycle, carried on once around it, is still simple. */
  lemma OnceAround<T(!new)>(graph: map<T, seq<T>>, q: seq<T>, c: seq<T>)
    requires SimplePath(graph, q) && SimpleCycle(GraphEdges(graph), c) && Last(q) == c[0]
    requires forall i :: 0 <= i < |q| - 1 ==> q[i] !in c
    ensures SimplePath(graph, q[..|q| - 1] + c)
  {
    var es, m := GraphEdges(graph), |q| - 1;
    if m > 0 {
      SliceOfWalk(es, q, 0, m);
      assert q[0..m] == q[..m] && (q[m - 1], q[m - 1 + 1]) in es;
      JoinWalks(es, q[..m], c);
    } else {
      assert q[..m] + c == c;
    }
    CycleElementsAreNodes(graph, c);
  }

  /** A simple path that meets a cycle only at its end: going once around records that cycle. */
  lemma CycleFromPath<T(!new)>(graph: map<T, seq<T>>, cycles: seq<seq<T>>, explored: set<seq<T>>,
                               visited: set<T>, q: seq<T>, c: seq<T>)
    requires Searched(graph, cycles, explored, [], visited)
    requires SimplePath(graph, q) && [q[0]] in explored
    requires SimpleCycle(GraphEdges(graph), c) && Last(q) == c[0]
    requires forall i :: 0 <= i < |q| - 1 ==> q[i] !in c
    ensures Covered(cycles, c)
  {
    var m := |q| - 1;
    var s := q[..m] + c;
    OnceAround(graph, q, c);
    assert s[0] == q[0];
    SimplePathsExplored(graph, cycles, explored, visited, s);
    assert (Last(c), c[0]) in GraphEdges(graph);
    assert s[m] == c[0] && Last(s) == Last(c);
    assert ChildSettled(cycles, explored + PathsOf([]), s, c[0]);
    assert IndexOf(s, c[0]) == m;
    assert s[m..] == c;
  }

  lemma CycleElementsAreNodes<T(!new)>(graph: map<T, seq<T>>, c: seq<T>)
    requires SimpleCycle(GraphEdges(graph), c)
    ensures forall x :: x in c ==> x in graph
  {
    forall i | 0 <= i < |c| ensures c[i] in graph {
      if i < |c| - 1 {
        assert (c[i], c[i + 1]) in GraphEdges(graph);
      }
    }
  }

  /** Every key is either explored as a root or was met on a path from one, so every cycle is recorded. */
  lemma EveryCycleCovered<T(!new)>(graph: map<T, seq<T>>, cycles: seq<seq<T>>, explored: set<seq<T>>,
                                   visited: set<T>, c: seq<T>)
    requires Searched(graph, cycles, explored, [], visited)
    requires forall k :: k in graph ==> k in visited || [k] in explored
    requires SimpleCycle(GraphEdges(graph), c)
    ensures Covered(cycles, c)
  {
    CycleElementsAreNodes(graph, c);
    assert c[0] in graph;
    var p: seq<T> := [c[0]];
    if [c[0]] !in explored {
      assert EndsKnownPath(explored + PathsOf([]), c[0]);
      p :| p in explored + PathsOf([]) && |p| > 0 && Last(p) == c[0];
    }
    assert p in explored + PathsOf([]);
    var m := FirstIn(p, c);
    var k :| 0 <= k < |c| && c[k] == p[m];
    var q, d := p[..m + 1], c[k..] + c[..k];
    SliceOfWalk(GraphEdges(graph), p, 0, m + 1);
    assert p[0..m + 1] == q;
    RotatedCycle(GraphEdges(graph), c, k);
    forall i | 0 <= i < |q| - 1 ensures q[i] !in d {
      assert q[i] == p[i];
      assert forall x :: x in d ==> x in c;
    }
    CycleFromPath(graph, cycles, explored, visited, q, d);
    var i :| 0 <= i < |cycles| && IsRotation(cycles[i], d);
    RotationBack(c, k);
    RotationTransitive(cycles[i], d, c);
  }

  /** The first position of p that holds an element of c. */
  lemma FirstIn<T>(p: seq<T>, c: seq<T>) returns (m: nat)
    requires |p| > 0 && Last(p) in c
    ensures m < |p| && p[m] in c && forall i :: 0 <= i < m ==> p[i] !in c
  {
    m := 0;
    while p[m] !in c
      invariant m < |p| && forall i :: 0 <= i < m ==> p[i] !in c
      decreases |p| - m
    {
      m := m + 1;
    }
  }

  /** Lists the cycles of the graph: simple cycles only, no two rotations of each other, and every simple
      cycle up to rotation, although roots already met on an earlier path are skipped. */
  method FindCycles<T(==, !new)>(graph: map<T, seq<T>>) returns (cycles: seq<seq<T>>)
    ensures GoodCycles(graph, cycles)
    ensures forall c :: SimpleCycle(GraphEdges(graph), c) ==> Covered(cycles, c)
  {
    cycles := [];
    var visited: set<T> := {};
    ghost var explored: set<seq<T>> := {};
    var keys := KeysInSomeOrder(graph);
    for r := 0 to |keys|
      invariant Searched(graph, cycles, explored, [], visited)
      invariant forall m :: 0 <= m < r ==> keys[m] in visited || [keys[m]] in explored
    {
      assert keys[r] in SetOf(keys);
      if keys[r] !in visited {
        cycles, visited, explored := ExploreRoot(graph, keys[r], cycles, visited, explored);
      }
    }
    forall c | SimpleCycle(GraphEdges(graph), c) ensures Covered(cycles, c) {
      assert forall k :: k in graph ==> k in SetOf(keys);
      EveryCycleCovered(graph, cycles, explored, visited, c);
    }
  }
}
