/** The gatherer of utils/print-introspected-doxygen.cc, with its two stacks and its output list. */
module StaticInformationGatherer {
  import opened ConfigPaths
  import opened Digraph
  import Sequences

  class StaticInformation {
    const reg: Registry
    const aggregates: Aggregates
    var output: seq<(TypeId, string)>
    var currentPath: seq<string>
    var alreadyProcessed: seq<TypeId>

    constructor (reg: Registry, aggregates: Aggregates)
      ensures this.reg == reg && this.aggregates == aggregates
      ensures output == [] && currentPath == [] && alreadyProcessed == []
    {
      this.reg, this.aggregates := reg, aggregates;
      output, currentPath, alreadyProcessed := [], [], [];
    }

    method GetCurrentPath() returns (path: string)
      ensures path == Render(currentPath)
    {
      path := "";
      for i := 0 to |currentPath|
        invariant path == Render(currentPath[..i])
      {
        assert currentPath[..i + 1][..i] == currentPath[..i];
        path := path + "/" + currentPath[i];
      }
      assert currentPath[..|currentPath|] == currentPath;
    }

    method RecordOutput(tid: TypeId)
      modifies this`output
      ensures output == old(output) + [(tid, Render(currentPath))]
    {
      var path := GetCurrentPath();
      output := output + [(tid, path)];
    }

    method HasAlreadyBeenProcessed(tid: TypeId) returns (found: bool)
      ensures found <==> tid in alreadyProcessed
    {
      for i := 0 to |alreadyProcessed|
        invariant tid !in alreadyProcessed[..i]
      {
        if alreadyProcessed[i] == tid {
          return true;
        }
      }
      return false;
    }

    /** Goes along one more edge with its name and the type left behind pushed, and pops both again. */
    method Follow(tid: TypeId, name: string, target: TypeId, ghost start: seq<(TypeId, string)>, ghost es: seq<Edge>)
      requires Closed(reg, aggregates) && tid in reg.all && target in reg.all && tid !in alreadyProcessed
      requires Targets(reg, es)
      requires output == start + GatheredThrough(reg, aggregates, alreadyProcessed + [tid], currentPath, es)
      modifies this
      ensures currentPath == old(currentPath) && alreadyProcessed == old(alreadyProcessed)
      ensures Targets(reg, es + [Edge(name, target)])
      ensures output == start + GatheredThrough(reg, aggregates, alreadyProcessed + [tid], currentPath,
        es + [Edge(name, target)])
      decreases Left(reg, alreadyProcessed), 0
    {
      LeftShrinks(reg, alreadyProcessed, tid);
      OneMoreEdge(reg, aggregates, alreadyProcessed + [tid], currentPath, es, Edge(name, target));
      currentPath := currentPath + [name];
      alreadyProcessed := alreadyProcessed + [tid];
      DoGather(target);
      alreadyProcessed := alreadyProcessed[..|alreadyProcessed| - 1];
      currentPath := currentPath[..|currentPath| - 1];
    }

    /** Records a type under the current path and gathers whatever its edges lead to; both stacks are
        left as they were found. */
    method DoGather(tid: TypeId)
      requires Closed(reg, aggregates) && tid in reg.all
      modifies this
      ensures currentPath == old(currentPath) && alreadyProcessed == old(alreadyProcessed)
      ensures output == old(output) + Gathered(reg, aggregates, old(alreadyProcessed), old(currentPath), tid)
      decreases Left(reg, alreadyProcessed), 2
    {
      var processed := HasAlreadyBeenProcessed(tid);
      if processed {
        return;
      }
      GatheredByKind(reg, aggregates, alreadyProcessed, currentPath, tid);
      RecordOutput(tid);
      GatherAttributes(tid);
      GatherChildren(tid);
      GatherAggregates(tid);
      ghost var done := alreadyProcessed + [tid];
      Sequences.RegroupFive(old(output), [(tid, Render(currentPath))],
                     GatheredThrough(reg, aggregates, done, currentPath, AttributeEdges(reg, reg.attributes(tid))),
                     GatheredThrough(reg, aggregates, done, currentPath, ChildEdges(reg, tid, reg.registered)),
                     GatheredThrough(reg, aggregates, done, currentPath, AggregateEdges(reg, tid, aggregates)));
    }

    method GatherAttributes(tid: TypeId)
      requires Closed(reg, aggregates) && tid in reg.all && tid !in alreadyProcessed
      requires Targets(reg, AttributeEdges(reg, reg.attributes(tid)))
      modifies this
      ensures currentPath == old(currentPath) && alreadyProcessed == old(alreadyProcessed)
      ensures output == old(output) + GatheredThrough(reg, aggregates, old(alreadyProcessed) + [tid], old(currentPath),
                                                      AttributeEdges(reg, reg.attributes(tid)))
      decreases Left(reg, alreadyProcessed), 1
    {
      var attributes := reg.attributes(tid);
      ghost var es: seq<Edge> := [];
      for i := 0 to |attributes|
        invariant currentPath == old(currentPath) && alreadyProcessed == old(alreadyProcessed)
        invariant es == AttributeEdges(reg, attributes[..i]) && Targets(reg, es)
        invariant output == old(output) + GatheredThrough(reg, aggregates, alreadyProcessed + [tid], currentPath, es)
      {
        AttributeEdgesStep(reg, attributes, i);
        if attributes[i].PointerTo? {
          var name, pointee := attributes[i].name, attributes[i].pointee;
          if pointee != reg.objectType {
            EdgeInReach(reg, es, Edge(name, pointee));
            Follow(tid, name, pointee, old(output), es);
            es := es + [Edge(name, pointee)];
          }
        } else if attributes[i].ContainerOf? {
          var name, item := attributes[i].name + "/[i]", attributes[i].item;
          EdgeInReach(reg, es, Edge(name, item));
          Follow(tid, name, item, old(output), es);
          es := es + [Edge(name, item)];
        }
      }
      assert attributes[..|attributes|] == attributes;
    }

    method GatherChildren(tid: TypeId)
      requires Closed(reg, aggregates) && tid in reg.all && tid !in alreadyProcessed
      requires Targets(reg, ChildEdges(reg, tid, reg.registered))
      modifies this
      ensures currentPath == old(currentPath) && alreadyProcessed == old(alreadyProcessed)
      ensures output == old(output) + GatheredThrough(reg, aggregates, old(alreadyProcessed) + [tid], old(currentPath),
                                                      ChildEdges(reg, tid, reg.registered))
      decreases Left(reg, alreadyProcessed), 1
    {
      ghost var es: seq<Edge> := [];
      for j := 0 to |reg.registered|
        invariant currentPath == old(currentPath) && alreadyProcessed == old(alreadyProcessed)
        invariant es == ChildEdges(reg, tid, reg.registered[..j]) && Targets(reg, es)
        invariant output == old(output) + GatheredThrough(reg, aggregates, alreadyProcessed + [tid], currentPath, es)
      {
        ChildEdgesStep(reg, tid, reg.registered, j);
        var child := reg.registered[j];
        if reg.isChildOf(child, tid) {
          var name := "$" + reg.nameOf(child);
          EdgeInReach(reg, es, Edge(name, child));
          Follow(tid, name, child, old(output), es);
          es := es + [Edge(name, child)];
        }
      }
      assert reg.registered[..|reg.registered|] == reg.registered;
    }

    method GatherAggregates(tid: TypeId)
      requires Closed(reg, aggregates) && tid in reg.all && tid !in alreadyProcessed
      requires Targets(reg, AggregateEdges(reg, tid, aggregates))
      modifies this
      ensures currentPath == old(currentPath) && alreadyProcessed == old(alreadyProcessed)
      ensures output == old(output) + GatheredThrough(reg, aggregates, old(alreadyProcessed) + [tid], old(currentPath),
                                                      AggregateEdges(reg, tid, aggregates))
      decreases Left(reg, alreadyProcessed), 1
    {
      ghost var es: seq<Edge> := [];
      for k := 0 to |aggregates|
        invariant currentPath == old(currentPath) && alreadyProcessed == old(alreadyProcessed)
        invariant es == AggregateEdges(reg, tid, aggregates[..k]) && Targets(reg, es)
        invariant output == old(output) + GatheredThrough(reg, aggregates, alreadyProcessed + [tid], currentPath, es)
      {
        AggregateEdgesStep(reg, tid, aggregates, k);
        var (first, second) := aggregates[k];
        if first == tid || second == tid {
          var other := tid;
          if first == tid {
            other := second;
          }
          if second == tid {
            other := first;
          }
          var name := "$" + reg.nameOf(other);
          EdgeInReach(reg, es, Edge(name, other));
          Follow(tid, name, other, old(output), es);
          es := es + [Edge(name, other)];
        }
      }
      assert aggregates[..|aggregates|] == aggregates;
    }

    /** Gathers from a type with both stacks empty: one entry for each walk that meets no type twice, each such
        walk listed once. */
    method Gather(tid: TypeId)
      requires Closed(reg, aggregates) && tid in reg.all && currentPath == [] && alreadyProcessed == []
      modifies this
      ensures currentPath == [] && alreadyProcessed == []
      ensures Distinct(WalksFrom(reg, aggregates, [], tid))
      ensures forall w :: w in WalksFrom(reg, aggregates, [], tid) <==> SimpleWalk(reg, aggregates, [], tid, w)
      ensures |output| == |old(output)| + |WalksFrom(reg, aggregates, [], tid)| &&
        output[..|old(output)|] == old(output)
      ensures OneEntryEach(reg, aggregates, [], tid, WalksFrom(reg, aggregates, [], tid), output[|old(output)|..])
    {
      DoGather(tid);
      GatheredIsEntries(reg, aggregates, [], [], tid);
      WalksFromDistinct(reg, aggregates, [], tid);
      forall w ensures w in WalksFrom(reg, aggregates, [], tid) <==> SimpleWalk(reg, aggregates, [], tid, w) {
        WalksFromAreSimple(reg, aggregates, [], tid, w);
      }
      assert output[|old(output)|..] == Gathered(reg, aggregates, [], [], tid);
    }
  }
}
