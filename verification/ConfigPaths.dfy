/** Configuration paths of utils/print-introspected-doxygen.cc: every way to walk from a type through its
    attributes, its child types and its aggregates without meeting a type twice. */
module ConfigPaths {
  import opened Digraph
  import Sequences

  type TypeId = nat

  datatype Attribute =
    | PointerTo(name: string, pointee: TypeId)
    | ContainerOf(name: string, item: TypeId)
    | PlainValue(name: string)

  /** The registered types, as the introspection sees them. `all` bounds what can be met. */
  datatype Registry = Registry(
    all: set<TypeId>,
    objectType: TypeId,
    attributes: TypeId -> seq<Attribute>,
    registered: seq<TypeId>,
    isChildOf: (TypeId, TypeId) -> bool,
    nameOf: TypeId -> string)

  datatype Edge = Edge(name: string, target: TypeId)

  type Aggregates = seq<(TypeId, TypeId)>

  // ---------------------------------------------------------------- the edges of a type, in order

  predicate IsFollowed(reg: Registry, a: Attribute) {
    (a.PointerTo? && a.pointee != reg.objectType) || a.ContainerOf?
  }

  function AttributeEdge(a: Attribute): Edge
    requires !a.PlainValue?
  {
    match a
    case PointerTo(name, pointee) => Edge(name, pointee)
    case ContainerOf(name, item) => Edge(name + "/[i]", item)
  }

  /** A pointer attribute leads to its pointee unless that is a bare Object; a container to its items. */
  function AttributeEdges(reg: Registry, attributes: seq<Attribute>): seq<Edge> {
    if attributes == [] then [] else
      var n := |attributes| - 1;
      AttributeEdges(reg, attributes[..n]) +
      if IsFollowed(reg, attributes[n]) then [AttributeEdge(attributes[n])] else []
  }

  function ChildEdges(reg: Registry, tid: TypeId, registered: seq<TypeId>): seq<Edge> {
    if registered == [] then [] else
      var n := |registered| - 1;
      ChildEdges(reg, tid, registered[..n]) +
      if reg.isChildOf(registered[n], tid) then [Edge("$" + reg.nameOf(registered[n]), registered[n])] else []
  }

  /** The other end of an aggregation; a type aggregated with itself is its own other end. */
  function OtherEnd(tid: TypeId, pair: (TypeId, TypeId)): TypeId {
    if pair.1 == tid then pair.0 else pair.1
  }

  function AggregateEdges(reg: Registry, tid: TypeId, aggregates: Aggregates): seq<Edge> {
    if aggregates == [] then [] else
      var n := |aggregates| - 1;
      var pair := aggregates[n];
      AggregateEdges(reg, tid, aggregates[..n]) +
      if pair.0 == tid || pair.1 == tid
      then [Edge("$" + reg.nameOf(OtherEnd(tid, pair)), OtherEnd(tid, pair))] else []
  }

  function EdgesFrom(reg: Registry, aggregates: Aggregates, tid: TypeId): seq<Edge> {
    AttributeEdges(reg, reg.attributes(tid)) + ChildEdges(reg, tid, reg.registered) +
    AggregateEdges(reg, tid, aggregates)
  }

  ghost predicate Targets(reg: Registry, es: seq<Edge>) {
    forall i :: 0 <= i < |es| ==> es[i].target in reg.all
  }

  /** Nothing leads outside the registered types. */
  ghost predicate Closed(reg: Registry, aggregates: Aggregates) {
    forall tid :: tid in reg.all ==> Targets(reg, EdgesFrom(reg, aggregates, tid))
  }

  // ---------------------------------------------------------------- walks

  /** A walk from a type, as the index of the edge taken at each type met. */
  type Route = seq<nat>

  /** The walk follows existing edges and meets no type twice and none in `done`. */
  ghost predicate SimpleWalk(reg: Registry, ag: Aggregates, done: seq<TypeId>, tid: TypeId, w: Route)
    decreases |w|
  {
    && tid !in done
    && (w == [] ||
        (w[0] < |EdgesFrom(reg, ag, tid)| &&
         SimpleWalk(reg, ag, done + [tid], EdgesFrom(reg, ag, tid)[w[0]].target, w[1..])))
  }

  /** The types a walk meets, from its start to its end. */
  ghost function TypesMet(reg: Registry, ag: Aggregates, tid: TypeId, w: Route): seq<TypeId>
    decreases |w|
  {
    if w == [] || w[0] >= |EdgesFrom(reg, ag, tid)| then [tid] else
      [tid] + TypesMet(reg, ag, EdgesFrom(reg, ag, tid)[w[0]].target, w[1..])
  }

  ghost predicate FollowsEdges(reg: Registry, ag: Aggregates, tid: TypeId, w: Route)
    decreases |w|
  {
    w == [] || (w[0] < |EdgesFrom(reg, ag, tid)| && FollowsEdges(reg, ag, EdgesFrom(reg, ag, tid)[w[0]].target, w[1..]))
  }

  lemma {:induction false} SimpleWalkMeetsTypesOnce(reg: Registry, ag: Aggregates, done: seq<TypeId>, tid: TypeId,
                                                    w: Route)
    ensures SimpleWalk(reg, ag, done, tid, w) <==>
      && FollowsEdges(reg, ag, tid, w)
      && Distinct(TypesMet(reg, ag, tid, w))
      && forall t :: t in TypesMet(reg, ag, tid, w) ==> t !in done
    decreases |w|
  {
    var met := TypesMet(reg, ag, tid, w);
    assert met[0] == tid;
    if w != [] && w[0] < |EdgesFrom(reg, ag, tid)| {
      var next := EdgesFrom(reg, ag, tid)[w[0]].target;
      SimpleWalkMeetsTypesOnce(reg, ag, done + [tid], next, w[1..]);
      var rest := TypesMet(reg, ag, next, w[1..]);
      assert met == [tid] + rest;
      assert forall t :: t in met <==> t == tid || t in rest;
      assert Distinct(met) <==> tid !in rest && Distinct(rest) by { DistinctCons(tid, rest); }
    }
  }

  lemma DistinctCons(x: TypeId, s: seq<TypeId>)
    ensures Distinct([x] + s) <==> x !in s && Distinct(s)
  {
    var t := [x] + s;
    if Distinct(t) {
      forall i, j | 0 <= i < j < |s| ensures s[i] != s[j] {
        assert t[i + 1] != t[j + 1];
      }
      forall i | 0 <= i < |s| ensures s[i] != x {
        assert t[0] != t[i + 1];
      }
    }
  }

  function Render(path: seq<string>): string {
    if path == [] then "" else Render(path[..|path| - 1]) + "/" + path[|path| - 1]
  }

  /** Where a walk ends, and the configuration path it spells. */
  ghost function Entry(reg: Registry, ag: Aggregates, path: seq<string>, tid: TypeId, w: Route): (TypeId, string)
    requires FollowsEdges(reg, ag, tid, w)
    decreases |w|
  {
    if w == [] then (tid, Render(path)) else
      var e := EdgesFrom(reg, ag, tid)[w[0]];
      Entry(reg, ag, path + [e.name], e.target, w[1..])
  }

  // ---------------------------------------------------------------- all of them, depth first

  ghost function Left(reg: Registry, done: seq<TypeId>): set<TypeId> {
    set t | t in reg.all && t !in done
  }

  lemma LeftShrinks(reg: Registry, done: seq<TypeId>, tid: TypeId)
    requires tid in reg.all && tid !in done
    ensures Left(reg, done + [tid]) < Left(reg, done)
  {
    assert tid in Left(reg, done) && tid in done + [tid];
    assert forall t :: t in done ==> t in done + [tid];
  }

  ghost function Prefixed(i: nat, ws: seq<Route>): seq<Route> {
    seq(|ws|, k requires 0 <= k < |ws| => [i] + ws[k])
  }

  /** Every walk from a type, the empty one first, then those through each edge in turn. */
  ghost function WalksFrom(reg: Registry, ag: Aggregates, done: seq<TypeId>, tid: TypeId): seq<Route>
    requires Closed(reg, ag) && tid in reg.all
    decreases Left(reg, done), 1, 0
  {
    if tid in done then [] else
      LeftShrinks(reg, done, tid);
      [[]] + WalksThrough(reg, ag, done + [tid], EdgesFrom(reg, ag, tid))
  }

  ghost function WalksThrough(reg: Registry, ag: Aggregates, done: seq<TypeId>, es: seq<Edge>): seq<Route>
    requires Closed(reg, ag) && Targets(reg, es)
    decreases Left(reg, done), 2, |es|
  {
    if es == [] then [] else
      var n := |es| - 1;
      WalksThrough(reg, ag, done, es[..n]) + Prefixed(n, WalksFrom(reg, ag, done, es[n].target))
  }

  /** What is recorded below a type. */
  ghost function Gathered(reg: Registry, ag: Aggregates, done: seq<TypeId>, path: seq<string>, tid: TypeId)
    : seq<(TypeId, string)>
    requires Closed(reg, ag) && tid in reg.all
    decreases Left(reg, done), 1, 0
  {
    if tid in done then [] else
      LeftShrinks(reg, done, tid);
      [(tid, Render(path))] + GatheredThrough(reg, ag, done + [tid], path, EdgesFrom(reg, ag, tid))
  }

  ghost function GatheredThrough(reg: Registry, ag: Aggregates, done: seq<TypeId>, path: seq<string>, es: seq<Edge>)
    : seq<(TypeId, string)>
    requires Closed(reg, ag) && Targets(reg, es)
    decreases Left(reg, done), 2, |es|
  {
    if es == [] then [] else
      var n := |es| - 1;
      GatheredThrough(reg, ag, done, path, es[..n]) +
      Gathered(reg, ag, done, path + [es[n].name], es[n].target)
  }

  // ---------------------------------------------------------------- the walks are exactly the simple ones

  lemma PrefixedHas(i: nat, ws: seq<Route>, w: Route)
    ensures w in Prefixed(i, ws) <==> w != [] && w[0] == i && w[1..] in ws
  {
    if w in Prefixed(i, ws) {
      var k :| 0 <= k < |ws| && Prefixed(i, ws)[k] == w;
      assert w == [i] + ws[k];
    }
    if w != [] && w[0] == i && w[1..] in ws {
      var k :| 0 <= k < |ws| && ws[k] == w[1..];
      assert Prefixed(i, ws)[k] == w;
    }
  }

  lemma {:induction false} WalksFromAreSimple(reg: Registry, ag: Aggregates, done: seq<TypeId>, tid: TypeId, w: Route)
    requires Closed(reg, ag) && tid in reg.all
    ensures w in WalksFrom(reg, ag, done, tid) <==> SimpleWalk(reg, ag, done, tid, w)
    decreases Left(reg, done), 1, 0
  {
    if tid !in done {
      LeftShrinks(reg, done, tid);
      WalksThroughAreSimple(reg, ag, done + [tid], EdgesFrom(reg, ag, tid), w);
    }
  }

  lemma {:induction false} WalksThroughAreSimple(reg: Registry, ag: Aggregates, done: seq<TypeId>, es: seq<Edge>,
                                                 w: Route)
    requires Closed(reg, ag) && Targets(reg, es)
    ensures w in WalksThrough(reg, ag, done, es)
       <==> w != [] && w[0] < |es| && SimpleWalk(reg, ag, done, es[w[0]].target, w[1..])
    decreases Left(reg, done), 2, |es|
  {
    if es != [] {
      var n := |es| - 1;
      var last := WalksFrom(reg, ag, done, es[n].target);
      WalksThroughAreSimple(reg, ag, done, es[..n], w);
      PrefixedHas(n, last, w);
      if w != [] && w[0] == n {
        WalksFromAreSimple(reg, ag, done, es[n].target, w[1..]);
      }
      assert w in WalksThrough(reg, ag, done, es) <==>
        w in WalksThrough(reg, ag, done, es[..n]) || w in Prefixed(n, last);
    }
  }

  lemma PrefixedDistinct(i: nat, ws: seq<Route>)
    requires Distinct(ws)
    ensures Distinct(Prefixed(i, ws))
  {
    var ps := Prefixed(i, ws);
    forall j, k | 0 <= j < k < |ps| ensures ps[j] != ps[k] {
      assert ps[j][1..] == ws[j] && ps[k][1..] == ws[k];
    }
  }

  lemma {:induction false} WalksFromDistinct(reg: Registry, ag: Aggregates, done: seq<TypeId>, tid: TypeId)
    requires Closed(reg, ag) && tid in reg.all
    ensures Distinct(WalksFrom(reg, ag, done, tid))
    decreases Left(reg, done), 1, 0
  {
    if tid !in done {
      LeftShrinks(reg, done, tid);
      var es := EdgesFrom(reg, ag, tid);
      WalksThroughDistinct(reg, ag, done + [tid], es);
      WalksThroughAreSimple(reg, ag, done + [tid], es, []);
      DistinctAppend([[]], WalksThrough(reg, ag, done + [tid], es));
    }
  }

  lemma {:induction false} WalksThroughDistinct(reg: Registry, ag: Aggregates, done: seq<TypeId>, es: seq<Edge>)
    requires Closed(reg, ag) && Targets(reg, es)
    ensures Distinct(WalksThrough(reg, ag, done, es))
    decreases Left(reg, done), 2, |es|
  {
    if es != [] {
      var n := |es| - 1;
      var last := WalksFrom(reg, ag, done, es[n].target);
      WalksThroughDistinct(reg, ag, done, es[..n]);
      WalksFromDistinct(reg, ag, done, es[n].target);
      PrefixedDistinct(n, last);
      forall w | w in WalksThrough(reg, ag, done, es[..n]) ensures w !in Prefixed(n, last) {
        WalksThroughAreSimple(reg, ag, done, es[..n], w);
        PrefixedHas(n, last, w);
      }
      DistinctAppend(WalksThrough(reg, ag, done, es[..n]), Prefixed(n, last));
    }
  }

  // ---------------------------------------------------------------- one entry per walk

  ghost predicate OneEntryEach(reg: Registry, ag: Aggregates, path: seq<string>, tid: TypeId, ws: seq<Route>,
                               out: seq<(TypeId, string)>) {
    && |out| == |ws|
    && forall k :: 0 <= k < |ws| ==> FollowsEdges(reg, ag, tid, ws[k]) && out[k] == Entry(reg, ag, path, tid, ws[k])
  }

  /** The same for walks that begin with one of the given edges. */
  ghost predicate OneEntryEachThrough(reg: Registry, ag: Aggregates, path: seq<string>, es: seq<Edge>, ws: seq<Route>,
                                      out: seq<(TypeId, string)>) {
    && |out| == |ws|
    && forall k :: 0 <= k < |ws| ==>
         && ws[k] != [] && ws[k][0] < |es|
         && FollowsEdges(reg, ag, es[ws[k][0]].target, ws[k][1..])
         && out[k] == Entry(reg, ag, path + [es[ws[k][0]].name], es[ws[k][0]].target, ws[k][1..])
  }

  lemma {:induction false} GatheredIsEntries(reg: Registry, ag: Aggregates, done: seq<TypeId>, path: seq<string>,
                                             tid: TypeId)
    requires Closed(reg, ag) && tid in reg.all
    ensures OneEntryEach(reg, ag, path, tid, WalksFrom(reg, ag, done, tid), Gathered(reg, ag, done, path, tid))
    decreases Left(reg, done), 1, 0
  {
    if tid !in done {
      LeftShrinks(reg, done, tid);
      var es := EdgesFrom(reg, ag, tid);
      var ws, out := WalksThrough(reg, ag, done + [tid], es), GatheredThrough(reg, ag, done + [tid], path, es);
      GatheredThroughIsEntries(reg, ag, done + [tid], path, es);
      forall k | 0 <= k < |ws|
        ensures FollowsEdges(reg, ag, tid, ws[k]) && out[k] == Entry(reg, ag, path, tid, ws[k])
      {
      }
    }
  }

  lemma {:induction false} GatheredThroughIsEntries(reg: Registry, ag: Aggregates, done: seq<TypeId>, path: seq<string>,
                                                    es: seq<Edge>)
    requires Closed(reg, ag) && Targets(reg, es)
    ensures OneEntryEachThrough(reg, ag, path, es, WalksThrough(reg, ag, done, es),
      GatheredThrough(reg, ag, done, path, es))
    decreases Left(reg, done), 2, |es|
  {
    if es != [] {
      var n := |es| - 1;
      var ws, out := WalksThrough(reg, ag, done, es[..n]), GatheredThrough(reg, ag, done, path, es[..n]);
      var us, more := WalksFrom(reg, ag, done, es[n].target),
        Gathered(reg, ag, done, path + [es[n].name], es[n].target);
      GatheredThroughIsEntries(reg, ag, done, path, es[..n]);
      GatheredIsEntries(reg, ag, done, path + [es[n].name], es[n].target);
      LastEdgeEntries(reg, ag, path, es, ws, out, us, more);
    }
  }

  lemma LastEdgeEntries(reg: Registry, ag: Aggregates, path: seq<string>, es: seq<Edge>, ws: seq<Route>,
                        out: seq<(TypeId, string)>, us: seq<Route>, more: seq<(TypeId, string)>)
    requires es != []
    requires OneEntryEachThrough(reg, ag, path, es[..|es| - 1], ws, out)
    requires OneEntryEach(reg, ag, path + [es[|es| - 1].name], es[|es| - 1].target, us, more)
    ensures OneEntryEachThrough(reg, ag, path, es, ws + Prefixed(|es| - 1, us), out + more)
  {
    var n := |es| - 1;
    var all := ws + Prefixed(n, us);
    forall k | 0 <= k < |all|
      ensures all[k] != [] && all[k][0] < |es|
      ensures FollowsEdges(reg, ag, es[all[k][0]].target, all[k][1..])
      ensures (out + more)[k] == Entry(reg, ag, path + [es[all[k][0]].name], es[all[k][0]].target, all[k][1..])
    {
      if k < |ws| {
        assert all[k] == ws[k];
      } else {
        assert all[k] == [n] + us[k - |ws|] && all[k][1..] == us[k - |ws|];
      }
    }
  }

  // ---------------------------------------------------------------- gathering edge by edge

  lemma TargetsAppend(reg: Registry, a: seq<Edge>, b: seq<Edge>)
    requires Targets(reg, a) && Targets(reg, b)
    ensures Targets(reg, a + b)
  {
  }

  lemma {:induction false} GatheredThroughAppend(reg: Registry, ag: Aggregates, done: seq<TypeId>, path: seq<string>,
                                                 a: seq<Edge>, b: seq<Edge>)
    requires Closed(reg, ag) && Targets(reg, a) && Targets(reg, b)
    ensures Targets(reg, a + b)
    ensures GatheredThrough(reg, ag, done, path, a + b)
         == GatheredThrough(reg, ag, done, path, a) + GatheredThrough(reg, ag, done, path, b)
    decreases |b|
  {
    TargetsAppend(reg, a, b);
    if b == [] {
      assert a + b == a;
    } else {
      var n := |b| - 1;
      GatheredThroughAppend(reg, ag, done, path, a, b[..n]);
      assert (a + b)[..|a + b| - 1] == a + b[..n];
      Sequences.Regroup(GatheredThrough(reg, ag, done, path, a), GatheredThrough(reg, ag, done, path, b[..n]),
                        Gathered(reg, ag, done, path + [b[n].name], b[n].target));
    }
  }

  lemma TargetsParts(reg: Registry, a: seq<Edge>, b: seq<Edge>, c: seq<Edge>)
    requires Targets(reg, a + b + c)
    ensures Targets(reg, a) && Targets(reg, b) && Targets(reg, c)
  {
    var es := a + b + c;
    forall i | 0 <= i < |a| ensures a[i].target in reg.all {
      assert es[i] == a[i];
    }
    forall i | 0 <= i < |b| ensures b[i].target in reg.all {
      assert es[|a| + i] == b[i];
    }
    forall i | 0 <= i < |c| ensures c[i].target in reg.all {
      assert es[|a| + |b| + i] == c[i];
    }
  }

  lemma EdgesTargets(reg: Registry, ag: Aggregates, tid: TypeId)
    requires Closed(reg, ag) && tid in reg.all
    ensures Targets(reg, AttributeEdges(reg, reg.attributes(tid)))
    ensures Targets(reg, ChildEdges(reg, tid, reg.registered))
    ensures Targets(reg, AggregateEdges(reg, tid, ag))
  {
    assert Targets(reg, EdgesFrom(reg, ag, tid));
    TargetsParts(reg, AttributeEdges(reg, reg.attributes(tid)), ChildEdges(reg, tid, reg.registered),
                 AggregateEdges(reg, tid, ag));
  }

  lemma OneMoreEdge(reg: Registry, ag: Aggregates, done: seq<TypeId>, path: seq<string>, es: seq<Edge>, e: Edge)
    requires Closed(reg, ag) && Targets(reg, es) && e.target in reg.all
    ensures Targets(reg, es + [e])
    ensures GatheredThrough(reg, ag, done, path, es + [e])
         == GatheredThrough(reg, ag, done, path, es) + Gathered(reg, ag, done, path + [e.name], e.target)
  {
    assert (es + [e])[..|es|] == es;
  }

  /** The edges of a type are gathered kind by kind. */
  lemma GatheredByKind(reg: Registry, ag: Aggregates, done: seq<TypeId>, path: seq<string>, tid: TypeId)
    requires Closed(reg, ag) && tid in reg.all && tid !in done
    ensures Targets(reg, AttributeEdges(reg, reg.attributes(tid)))
    ensures Targets(reg, ChildEdges(reg, tid, reg.registered))
    ensures Targets(reg, AggregateEdges(reg, tid, ag))
    ensures Gathered(reg, ag, done, path, tid) == [(tid, Render(path))] + (
      GatheredThrough(reg, ag, done + [tid], path, AttributeEdges(reg, reg.attributes(tid))) +
      GatheredThrough(reg, ag, done + [tid], path, ChildEdges(reg, tid, reg.registered)) +
      GatheredThrough(reg, ag, done + [tid], path, AggregateEdges(reg, tid, ag)))
  {
    EdgesTargets(reg, ag, tid);
    var a, b, c := AttributeEdges(reg, reg.attributes(tid)), ChildEdges(reg, tid, reg.registered),
      AggregateEdges(reg, tid, ag);
    GatheredThroughAppend(reg, ag, done + [tid], path, a, b);
    GatheredThroughAppend(reg, ag, done + [tid], path, a + b, c);
  }

  lemma EdgeInReach(reg: Registry, es: seq<Edge>, e: Edge)
    requires Targets(reg, es + [e])
    ensures Targets(reg, es) && e.target in reg.all
  {
    assert (es + [e])[|es|] == e;
    assert forall i :: 0 <= i < |es| ==> (es + [e])[i] == es[i];
  }

  lemma AttributeEdgesStep(reg: Registry, attributes: seq<Attribute>, i: nat)
    requires i < |attributes|
    requires Targets(reg, AttributeEdges(reg, attributes))
    ensures Targets(reg, AttributeEdges(reg, attributes[..i + 1]))
    ensures AttributeEdges(reg, attributes[..i + 1]) == AttributeEdges(reg, attributes[..i]) +
      if IsFollowed(reg, attributes[i]) then [AttributeEdge(attributes[i])] else []
  {
    AttributeEdgesPrefix(reg, attributes, i + 1);
    assert attributes[..i + 1][..i] == attributes[..i];
  }

  lemma {:induction false} AttributeEdgesPrefix(reg: Registry, attributes: seq<Attribute>, i: nat)
    requires i <= |attributes|
    ensures AttributeEdges(reg, attributes[..i]) <= AttributeEdges(reg, attributes)
    decreases |attributes|
  {
    if i < |attributes| {
      AttributeEdgesPrefix(reg, attributes[..|attributes| - 1], i);
      assert attributes[..|attributes| - 1][..i] == attributes[..i];
    } else {
      assert attributes[..i] == attributes;
    }
  }

  lemma ChildEdgesStep(reg: Registry, tid: TypeId, registered: seq<TypeId>, j: nat)
    requires j < |registered|
    requires Targets(reg, ChildEdges(reg, tid, registered))
    ensures Targets(reg, ChildEdges(reg, tid, registered[..j + 1]))
    ensures ChildEdges(reg, tid, registered[..j + 1]) == ChildEdges(reg, tid, registered[..j]) +
      if reg.isChildOf(registered[j], tid) then [Edge("$" + reg.nameOf(registered[j]), registered[j])] else []
  {
    ChildEdgesPrefix(reg, tid, registered, j + 1);
    assert registered[..j + 1][..j] == registered[..j];
  }

  lemma {:induction false} ChildEdgesPrefix(reg: Registry, tid: TypeId, registered: seq<TypeId>, j: nat)
    requires j <= |registered|
    ensures ChildEdges(reg, tid, registered[..j]) <= ChildEdges(reg, tid, registered)
    decreases |registered|
  {
    if j < |registered| {
      ChildEdgesPrefix(reg, tid, registered[..|registered| - 1], j);
      assert registered[..|registered| - 1][..j] == registered[..j];
    } else {
      assert registered[..j] == registered;
    }
  }

  lemma AggregateEdgesStep(reg: Registry, tid: TypeId, ag: Aggregates, k: nat)
    requires k < |ag|
    requires Targets(reg, AggregateEdges(reg, tid, ag))
    ensures Targets(reg, AggregateEdges(reg, tid, ag[..k + 1]))
    ensures AggregateEdges(reg, tid, ag[..k + 1]) == AggregateEdges(reg, tid, ag[..k]) +
      if ag[k].0 == tid || ag[k].1 == tid
      then [Edge("$" + reg.nameOf(OtherEnd(tid, ag[k])), OtherEnd(tid, ag[k]))] else []
  {
    AggregateEdgesPrefix(reg, tid, ag, k + 1);
    assert ag[..k + 1][..k] == ag[..k];
  }

  lemma {:induction false} AggregateEdgesPrefix(reg: Registry, tid: TypeId, ag: Aggregates, k: nat)
    requires k <= |ag|
    ensures AggregateEdges(reg, tid, ag[..k]) <= AggregateEdges(reg, tid, ag)
    decreases |ag|
  {
    if k < |ag| {
      AggregateEdgesPrefix(reg, tid, ag[..|ag| - 1], k);
      assert ag[..|ag| - 1][..k] == ag[..k];
    } else {
      assert ag[..k] == ag;
    }
  }
}
