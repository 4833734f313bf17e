/** What the edges and the recorded paths are, read off the registry: which links a type has, in which order they
    are taken, and what is spelled along them. */
module ConfigEdges {
  import opened ConfigPaths
  import opened Digraph
  import Sequences

  // ---------------------------------------------------------------- links

  /** Whatever a type may be linked by: its attributes, then the registered types, then the aggregations. */
  datatype Link = OfAttribute(a: Attribute) | OfRegistered(t: TypeId) | OfPair(pair: (TypeId, TypeId))

  function Links(reg: Registry, ag: Aggregates, tid: TypeId): seq<Link> {
    OfAttributes(reg.attributes(tid)) + OfAllRegistered(reg.registered) + OfPairs(ag)
  }

  function OfAttributes(attributes: seq<Attribute>): (ls: seq<Link>)
    ensures |ls| == |attributes| && forall i :: 0 <= i < |ls| ==> ls[i] == OfAttribute(attributes[i])
  {
    seq(|attributes|, i requires 0 <= i < |attributes| => OfAttribute(attributes[i]))
  }

  function OfAllRegistered(registered: seq<TypeId>): (ls: seq<Link>)
    ensures |ls| == |registered| && forall i :: 0 <= i < |ls| ==> ls[i] == OfRegistered(registered[i])
  {
    seq(|registered|, i requires 0 <= i < |registered| => OfRegistered(registered[i]))
  }

  function OfPairs(ag: Aggregates): (ls: seq<Link>)
    ensures |ls| == |ag| && forall i :: 0 <= i < |ls| ==> ls[i] == OfPair(ag[i])
  {
    seq(|ag|, i requires 0 <= i < |ag| => OfPair(ag[i]))
  }

  /** A pointer leads to its pointee unless that is a bare object, a container to its items, a child type and an
      aggregated type to themselves under their names. */
  predicate LeadsTo(reg: Registry, tid: TypeId, l: Link, e: Edge) {
    match l
    case OfAttribute(PointerTo(name, pointee)) =>
      e.name == name && e.target == pointee && pointee != reg.objectType
    case OfAttribute(ContainerOf(name, item)) => e.name == name + "/[i]" && e.target == item
    case OfAttribute(PlainValue(_)) => false
    case OfRegistered(t) => reg.isChildOf(t, tid) && e.name == "$" + reg.nameOf(t) && e.target == t
    case OfPair(pair) =>
      (pair == (tid, e.target) || pair == (e.target, tid)) && e.name == "$" + reg.nameOf(e.target)
  }

  predicate Leads(reg: Registry, tid: TypeId, l: Link) {
    match l
    case OfAttribute(PointerTo(_, pointee)) => pointee != reg.objectType
    case OfAttribute(ContainerOf(_, _)) => true
    case OfAttribute(PlainValue(_)) => false
    case OfRegistered(t) => reg.isChildOf(t, tid)
    case OfPair(pair) => pair.0 == tid || pair.1 == tid
  }

  /** How many of the first n links lead somewhere. */
  function Leading(reg: Registry, tid: TypeId, ls: seq<Link>, n: nat): nat
    requires n <= |ls|
  {
    if n == 0 then 0 else Leading(reg, tid, ls, n - 1) + if Leads(reg, tid, ls[n - 1]) then 1 else 0
  }

  /** One edge for each link that leads somewhere, in the order of the links. */
  ghost predicate InOrder(reg: Registry, tid: TypeId, ls: seq<Link>, es: seq<Edge>) {
    && |es| == Leading(reg, tid, ls, |ls|)
    && (forall i :: 0 <= i < |ls| && Leads(reg, tid, ls[i]) ==>
          Leading(reg, tid, ls, i) < |es| && LeadsTo(reg, tid, ls[i], es[Leading(reg, tid, ls, i)]))
    && (forall e :: e in es <==> exists i :: 0 <= i < |ls| && LeadsTo(reg, tid, ls[i], e))
  }

  lemma {:induction false} LeadingOfPrefix(reg: Registry, tid: TypeId, ls: seq<Link>, l: Link, n: nat)
    requires n <= |ls|
    ensures Leading(reg, tid, ls + [l], n) == Leading(reg, tid, ls, n)
  {
    if n > 0 {
      LeadingOfPrefix(reg, tid, ls, l, n - 1);
    }
  }

  lemma OneMoreLink(reg: Registry, tid: TypeId, ls: seq<Link>, es: seq<Edge>, l: Link, more: seq<Edge>)
    requires InOrder(reg, tid, ls, es)
    requires if Leads(reg, tid, l) then |more| == 1 && LeadsTo(reg, tid, l, more[0]) else more == []
    ensures InOrder(reg, tid, ls + [l], es + more)
  {
    var all := ls + [l];
    LeadingOfPrefix(reg, tid, ls, l, |ls|);
    forall i | 0 <= i < |all| && Leads(reg, tid, all[i])
      ensures Leading(reg, tid, all, i) < |es + more|
      ensures LeadsTo(reg, tid, all[i], (es + more)[Leading(reg, tid, all, i)])
    {
      LeadingOfPrefix(reg, tid, ls, l, i);
    }
    OneMoreMember(reg, tid, ls, es, l, more);
  }

  lemma OneMoreMember(reg: Registry, tid: TypeId, ls: seq<Link>, es: seq<Edge>, l: Link, more: seq<Edge>)
    requires forall e :: e in es <==> exists i :: 0 <= i < |ls| && LeadsTo(reg, tid, ls[i], e)
    requires if Leads(reg, tid, l) then |more| == 1 && LeadsTo(reg, tid, l, more[0]) else more == []
    ensures forall e :: e in es + more <==> exists i :: 0 <= i < |ls + [l]| && LeadsTo(reg, tid, (ls + [l])[i], e)
  {
    var all := ls + [l];
    forall e
      ensures e in es + more <==> exists i :: 0 <= i < |all| && LeadsTo(reg, tid, all[i], e)
    {
      if e in es {
        var i :| 0 <= i < |ls| && LeadsTo(reg, tid, ls[i], e);
        assert all[i] == ls[i];
      } else if e in more {
        assert e == more[0] && all[|ls|] == l;
      }
      if i :| 0 <= i < |all| && LeadsTo(reg, tid, all[i], e) {
        if i < |ls| {
          assert all[i] == ls[i];
        } else {
          assert Leads(reg, tid, l) && e == more[0];
        }
      }
    }
  }

  lemma LastAttribute(reg: Registry, tid: TypeId, attributes: seq<Attribute>) returns (l: Link, more: seq<Edge>)
    requires attributes != []
    ensures var n := |attributes| - 1;
      && OfAttributes(attributes) == OfAttributes(attributes[..n]) + [l]
      && AttributeEdges(reg, attributes) == AttributeEdges(reg, attributes[..n]) + more
    ensures if Leads(reg, tid, l) then |more| == 1 && LeadsTo(reg, tid, l, more[0]) else more == []
  {
    var a := attributes[|attributes| - 1];
    l := OfAttribute(a);
    more := if IsFollowed(reg, a) then [AttributeEdge(a)] else [];
  }

  lemma {:induction false} AttributesInOrder(reg: Registry, tid: TypeId, attributes: seq<Attribute>)
    ensures InOrder(reg, tid, OfAttributes(attributes), AttributeEdges(reg, attributes))
  {
    if attributes != [] {
      var n := |attributes| - 1;
      AttributesInOrder(reg, tid, attributes[..n]);
      var l, more := LastAttribute(reg, tid, attributes);
      OneMoreLink(reg, tid, OfAttributes(attributes[..n]), AttributeEdges(reg, attributes[..n]), l, more);
    }
  }

  lemma LastChild(reg: Registry, tid: TypeId, ls: seq<Link>, es: seq<Edge>, registered: seq<TypeId>)
    returns (l: Link, more: seq<Edge>)
    requires registered != []
    ensures var n := |registered| - 1;
      && ls + OfAllRegistered(registered) == ls + OfAllRegistered(registered[..n]) + [l]
      && es + ChildEdges(reg, tid, registered) == es + ChildEdges(reg, tid, registered[..n]) + more
    ensures if Leads(reg, tid, l) then |more| == 1 && LeadsTo(reg, tid, l, more[0]) else more == []
  {
    var n := |registered| - 1;
    var t := registered[n];
    l := OfRegistered(t);
    more := if reg.isChildOf(t, tid) then [Edge("$" + reg.nameOf(t), t)] else [];
    assert OfAllRegistered(registered) == OfAllRegistered(registered[..n]) + [l];
    Sequences.Regroup(ls, OfAllRegistered(registered[..n]), [l]);
    Sequences.Regroup(es, ChildEdges(reg, tid, registered[..n]), more);
  }

  lemma {:induction false} ChildrenInOrder(reg: Registry, tid: TypeId, ls: seq<Link>, es: seq<Edge>,
                                           registered: seq<TypeId>)
    requires InOrder(reg, tid, ls, es)
    ensures InOrder(reg, tid, ls + OfAllRegistered(registered), es + ChildEdges(reg, tid, registered))
  {
    if registered == [] {
      assert ls + OfAllRegistered([]) == ls && es + ChildEdges(reg, tid, []) == es;
    } else {
      var n := |registered| - 1;
      ChildrenInOrder(reg, tid, ls, es, registered[..n]);
      var l, more := LastChild(reg, tid, ls, es, registered);
      OneMoreLink(reg, tid, ls + OfAllRegistered(registered[..n]), es + ChildEdges(reg, tid, registered[..n]), l, more);
    }
  }

  function PairEdge(reg: Registry, tid: TypeId, pair: (TypeId, TypeId)): (more: seq<Edge>)
    ensures if Leads(reg, tid, OfPair(pair)) then |more| == 1 && LeadsTo(reg, tid, OfPair(pair), more[0])
            else more == []
  {
    if pair.0 == tid || pair.1 == tid then [Edge("$" + reg.nameOf(OtherEnd(tid, pair)), OtherEnd(tid, pair))] else []
  }

  lemma LastPair(reg: Registry, tid: TypeId, ls: seq<Link>, es: seq<Edge>, ag: Aggregates)
    requires ag != []
    ensures var n := |ag| - 1;
      && ls + OfPairs(ag) == ls + OfPairs(ag[..n]) + [OfPair(ag[n])]
      && es + AggregateEdges(reg, tid, ag) == es + AggregateEdges(reg, tid, ag[..n]) + PairEdge(reg, tid, ag[n])
  {
    var n := |ag| - 1;
    assert OfPairs(ag) == OfPairs(ag[..n]) + [OfPair(ag[n])];
    Sequences.Regroup(ls, OfPairs(ag[..n]), [OfPair(ag[n])]);
    Sequences.Regroup(es, AggregateEdges(reg, tid, ag[..n]), PairEdge(reg, tid, ag[n]));
  }

  lemma {:induction false} PairsInOrder(reg: Registry, tid: TypeId, ls: seq<Link>, es: seq<Edge>, ag: Aggregates)
    requires InOrder(reg, tid, ls, es)
    ensures InOrder(reg, tid, ls + OfPairs(ag), es + AggregateEdges(reg, tid, ag))
  {
    if ag == [] {
      assert ls + OfPairs([]) == ls && es + AggregateEdges(reg, tid, []) == es;
    } else {
      var n := |ag| - 1;
      PairsInOrder(reg, tid, ls, es, ag[..n]);
      OneMoreLink(reg, tid, ls + OfPairs(ag[..n]), es + AggregateEdges(reg, tid, ag[..n]), OfPair(ag[n]),
                  PairEdge(reg, tid, ag[n]));
      LastPair(reg, tid, ls, es, ag);
    }
  }

  /** The edges of a type are those of its links, each once and in order. */
  lemma EdgesAreLinks(reg: Registry, ag: Aggregates, tid: TypeId)
    ensures InOrder(reg, tid, Links(reg, ag, tid), EdgesFrom(reg, ag, tid))
  {
    AttributesInOrder(reg, tid, reg.attributes(tid));
    ChildrenInOrder(reg, tid, OfAttributes(reg.attributes(tid)), AttributeEdges(reg, reg.attributes(tid)),
                    reg.registered);
    PairsInOrder(reg, tid, OfAttributes(reg.attributes(tid)) + OfAllRegistered(reg.registered),
                 AttributeEdges(reg, reg.attributes(tid)) + ChildEdges(reg, tid, reg.registered), ag);
  }

  lemma LinksAre(reg: Registry, ag: Aggregates, tid: TypeId)
    ensures forall a :: OfAttribute(a) in Links(reg, ag, tid) <==> a in reg.attributes(tid)
    ensures forall t :: OfRegistered(t) in Links(reg, ag, tid) <==> t in reg.registered
    ensures forall pair :: OfPair(pair) in Links(reg, ag, tid) <==> pair in ag
  {
    var attributes := reg.attributes(tid);
    forall a | a in attributes ensures OfAttribute(a) in OfAttributes(attributes) {
      var i :| 0 <= i < |attributes| && attributes[i] == a;
      assert OfAttributes(attributes)[i] == OfAttribute(a);
    }
    forall t | t in reg.registered ensures OfRegistered(t) in OfAllRegistered(reg.registered) {
      var i :| 0 <= i < |reg.registered| && reg.registered[i] == t;
      assert OfAllRegistered(reg.registered)[i] == OfRegistered(t);
    }
    forall pair | pair in ag ensures OfPair(pair) in OfPairs(ag) {
      var i :| 0 <= i < |ag| && ag[i] == pair;
      assert OfPairs(ag)[i] == OfPair(pair);
    }
  }

  lemma LinkGivesEdge(reg: Registry, ag: Aggregates, tid: TypeId, l: Link, e: Edge)
    requires l in Links(reg, ag, tid) && LeadsTo(reg, tid, l, e)
    ensures e in EdgesFrom(reg, ag, tid)
  {
    EdgesAreLinks(reg, ag, tid);
    var i :| 0 <= i < |Links(reg, ag, tid)| && Links(reg, ag, tid)[i] == l;
  }

  lemma EdgeHasLink(reg: Registry, ag: Aggregates, tid: TypeId, e: Edge) returns (l: Link)
    requires e in EdgesFrom(reg, ag, tid)
    ensures l in Links(reg, ag, tid) && LeadsTo(reg, tid, l, e)
  {
    EdgesAreLinks(reg, ag, tid);
    var i :| 0 <= i < |Links(reg, ag, tid)| && LeadsTo(reg, tid, Links(reg, ag, tid)[i], e);
    l := Links(reg, ag, tid)[i];
  }

  /** What the registry says about an edge of a type: a pointer to anything but a bare object, a container, a
      registered child, or the other end of an aggregation. */
  ghost predicate IsEdge(reg: Registry, ag: Aggregates, tid: TypeId, name: string, t: TypeId) {
    || (PointerTo(name, t) in reg.attributes(tid) && t != reg.objectType)
    || (exists m :: ContainerOf(m, t) in reg.attributes(tid) && name == m + "/[i]")
    || (t in reg.registered && reg.isChildOf(t, tid) && name == "$" + reg.nameOf(t))
    || (((tid, t) in ag || (t, tid) in ag) && name == "$" + reg.nameOf(t))
  }

  lemma IsEdgeHasEdge(reg: Registry, ag: Aggregates, tid: TypeId, name: string, t: TypeId)
    requires IsEdge(reg, ag, tid, name, t)
    ensures Edge(name, t) in EdgesFrom(reg, ag, tid)
  {
    var e := Edge(name, t);
    LinksAre(reg, ag, tid);
    if PointerTo(name, t) in reg.attributes(tid) && t != reg.objectType {
      LinkGivesEdge(reg, ag, tid, OfAttribute(PointerTo(name, t)), e);
    } else if m :| ContainerOf(m, t) in reg.attributes(tid) && name == m + "/[i]" {
      LinkGivesEdge(reg, ag, tid, OfAttribute(ContainerOf(m, t)), e);
    } else if t in reg.registered && reg.isChildOf(t, tid) && name == "$" + reg.nameOf(t) {
      LinkGivesEdge(reg, ag, tid, OfRegistered(t), e);
    } else if (tid, t) in ag {
      LinkGivesEdge(reg, ag, tid, OfPair((tid, t)), e);
    } else {
      LinkGivesEdge(reg, ag, tid, OfPair((t, tid)), e);
    }
  }

  /** The edges of a type are exactly those the registry says it has. */
  lemma EdgeIff(reg: Registry, ag: Aggregates, tid: TypeId, name: string, t: TypeId)
    ensures Edge(name, t) in EdgesFrom(reg, ag, tid) <==> IsEdge(reg, ag, tid, name, t)
  {
    LinksAre(reg, ag, tid);
    if Edge(name, t) in EdgesFrom(reg, ag, tid) {
      var l := EdgeHasLink(reg, ag, tid, Edge(name, t));
      if l.OfAttribute? && l.a.ContainerOf? {
        assert l.a == ContainerOf(l.a.name, t);
      }
    }
    if IsEdge(reg, ag, tid, name, t) {
      IsEdgeHasEdge(reg, ag, tid, name, t);
    }
  }

  // ---------------------------------------------------------------- order of the walks

  /** A walk comes before those that go on from it and before those that take a later edge where they part. */
  predicate Earlier(u: Route, w: Route) {
    w != [] && (u == [] || u[0] < w[0] || (u[0] == w[0] && Earlier(u[1..], w[1..])))
  }

  ghost predicate Ascending(ws: seq<Route>) {
    forall i, j :: 0 <= i < j < |ws| ==> Earlier(ws[i], ws[j])
  }

  lemma {:induction false} WalksAscend(reg: Registry, ag: Aggregates, done: seq<TypeId>, tid: TypeId)
    requires Closed(reg, ag) && tid in reg.all
    ensures Ascending(WalksFrom(reg, ag, done, tid))
    decreases Left(reg, done), 1, 0
  {
    if tid !in done {
      LeftShrinks(reg, done, tid);
      var es := EdgesFrom(reg, ag, tid);
      WalksThroughAscend(reg, ag, done + [tid], es);
    }
  }

  lemma {:induction false} WalksThroughAscend(reg: Registry, ag: Aggregates, done: seq<TypeId>, es: seq<Edge>)
    requires Closed(reg, ag) && Targets(reg, es)
    ensures Ascending(WalksThrough(reg, ag, done, es))
    ensures forall w :: w in WalksThrough(reg, ag, done, es) ==> w != [] && w[0] < |es|
    decreases Left(reg, done), 2, |es|
  {
    if es != [] {
      var n := |es| - 1;
      WalksThroughAscend(reg, ag, done, es[..n]);
      WalksAscend(reg, ag, done, es[n].target);
      LastEdgeAscends(WalksThrough(reg, ag, done, es[..n]), n, WalksFrom(reg, ag, done, es[n].target));
    }
  }

  lemma LastEdgeAscends(ws: seq<Route>, n: nat, us: seq<Route>)
    requires Ascending(ws) && Ascending(us) && forall w :: w in ws ==> w != [] && w[0] < n
    ensures Ascending(ws + Prefixed(n, us))
    ensures forall w :: w in ws + Prefixed(n, us) ==> w != [] && w[0] < n + 1
  {
    var all := ws + Prefixed(n, us);
    forall k | 0 <= k < |us|
      ensures all[|ws| + k] == [n] + us[k] && all[|ws| + k][1..] == us[k]
    {
    }
    forall i, j | 0 <= i < j < |all|
      ensures Earlier(all[i], all[j])
    {
      if j < |ws| {
        assert all[i] == ws[i] && all[j] == ws[j];
      } else {
        assert all[|ws| + (j - |ws|)] == [n] + us[j - |ws|];
        if i < |ws| {
          assert all[i] == ws[i] && ws[i] in ws;
        } else {
          assert all[|ws| + (i - |ws|)] == [n] + us[i - |ws|];
        }
      }
    }
  }

  // ---------------------------------------------------------------- what a walk spells

  lemma RenderLast(p: seq<string>, name: string)
    ensures Render(p + [name]) == Render(p) + "/" + name
  {
    assert (p + [name])[..|p|] == p;
  }

  /** A path is spelled name by name. */
  lemma {:induction false} RenderAppend(p: seq<string>, q: seq<string>)
    ensures Render(p + q) == Render(p) + Render(q)
    ensures |q| == 1 ==> Render(q) == "/" + q[0]
    decreases |q|
  {
    if q == [] {
      Sequences.AppendNothing(p);
      Sequences.AppendNothing(Render(p));
    } else {
      var n := |q| - 1;
      RenderAppend(p, q[..n]);
      Sequences.Regroup(p, q[..n], [q[n]]);
      assert q[..n] + [q[n]] == q;
      RenderLast(p + q[..n], q[n]);
      RenderLast(q[..n], q[n]);
      Sequences.RegroupFour(Render(p), Render(q[..n]), "/", q[n]);
    }
  }

  /** The names along a walk, from its start to its end. */
  ghost function NamesAlong(reg: Registry, ag: Aggregates, tid: TypeId, w: Route): seq<string>
    requires FollowsEdges(reg, ag, tid, w)
    decreases |w|
  {
    if w == [] then [] else
      var e := EdgesFrom(reg, ag, tid)[w[0]];
      [e.name] + NamesAlong(reg, ag, e.target, w[1..])
  }

  /** An entry is the last type of its walk, under the names along the walk. */
  lemma {:induction false} EntrySpellsWalk(reg: Registry, ag: Aggregates, path: seq<string>, tid: TypeId, w: Route)
    requires FollowsEdges(reg, ag, tid, w)
    ensures Entry(reg, ag, path, tid, w)
         == (Last(TypesMet(reg, ag, tid, w)), Render(path) + Render(NamesAlong(reg, ag, tid, w)))
    decreases |w|
  {
    if w == [] {
      Sequences.AppendNothing(Render(path));
    } else {
      var e := EdgesFrom(reg, ag, tid)[w[0]];
      var rest := NamesAlong(reg, ag, e.target, w[1..]);
      EntrySpellsWalk(reg, ag, path + [e.name], e.target, w[1..]);
      RenderAppend(path, [e.name]);
      RenderAppend([e.name], rest);
      assert Render(path) + Render([e.name]) + Render(rest) == Render(path) + (Render([e.name]) + Render(rest));
      assert TypesMet(reg, ag, tid, w) == [tid] + TypesMet(reg, ag, e.target, w[1..]);
    }
  }
}
