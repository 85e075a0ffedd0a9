/**
 The graph that compiling and running produces, described completely: every node by name, every
 lane, the settings and the description.

 The compiled list runs in phases, and each section follows one. The nodes that the source lacks
 are removed; the edges of the target are removed, except those without an index, which no removal
 matches; the edges of the source are added, each lane's in order; settings and description are set.
 `CutoverPhases` has the phases before these, which edit the nodes themselves.
 */
module CutoverResult {
  import opened Prelude
  import opened JsonValues
  import opened CutoverModel
  import opened CutoverApply
  import opened CutoverBuild
  import opened CutoverPhases

  // ---- Extra nodes ----

  ghost predicate ExtrasDone(before: Workflow, after: Workflow, gone: set<string>) {
    && UniqueNames(after.nodes)
    && NoNullLanes(after.connections)
    && (forall name :: Find(after.nodes, name) == if name in gone then None else Find(before.nodes, name))
    && LanesOutside(before.connections, after.connections, gone)
    && (gone == {} ==> after.nodes == before.nodes)
    && after.settings == before.settings && after.description == before.description
  }

  lemma {:induction false} ExtraOpsRun(w: Workflow, nodes: seq<Node>, seen: set<string>)
    requires UniqueNames(w.nodes) && NoNullLanes(w.connections)
    ensures var out := ApplyAll(w, ExtraOps(nodes, seen));
            out.Done? && ExtrasDone(w, out.workflow, NamesOf(nodes) - seen)
    decreases |nodes|
  {
    hide Find, LanesOutside, NoNullLanes, UniqueNames, WithoutName, WithoutNode, NullLaneBeside;
    if nodes == [] {
      assert NamesOf(nodes) - seen == {};
      NoneGone(w.connections);
    } else {
      var name, rest := nodes[0].name, nodes[1..];
      NamesSplit(nodes);
      hide NamesOf;
      if name in seen {
        assert NamesOf(nodes) - seen == NamesOf(rest) - seen;
        ExtraOpsRun(w, rest, seen);
      } else {
        RemoveRuns(w, name);
        OneGone(w.connections, name);
        var next := ApplyOp(w, RemoveNode(name)).workflow;
        ExtraOpsRun(next, rest, seen + {name});
        var after := ApplyAll(next, ExtraOps(rest, seen + {name})).workflow;
        MoreGone(w.connections, next.connections, after.connections, {name}, NamesOf(rest) - (seen + {name}));
        assert {name} + (NamesOf(rest) - (seen + {name})) == NamesOf(nodes) - seen;
        assert name in NamesOf(nodes) - seen;
        var ops := ExtraOps(nodes, seen);
        assert ops[1..] == ExtraOps(rest, seen + {name});
      }
    }
  }

  lemma NamesSplit(nodes: seq<Node>)
    requires nodes != []
    ensures NamesOf(nodes) == {nodes[0].name} + NamesOf(nodes[1..])
  {
    assert forall n :: n in nodes <==> n == nodes[0] || n in nodes[1..];
  }

  // ---- Connections ----

  predicate Listed(edge: Edge, flats: seq<FlatEdge>) {
    exists flat | flat in flats :: Matches(edge, flat)
  }

  function Unlisted(flats: seq<FlatEdge>): Edge -> bool {
    (e: Edge) => !Listed(e, flats)
  }

  function IndexedAll(flats: seq<FlatEdge>): seq<Edge> {
    seq(|flats|, i requires 0 <= i < |flats| => Indexed(flats[i]))
  }

  ghost predicate OnlyLanesChange(before: Workflow, after: Workflow) {
    NoNullLanes(after.connections) && after == before.(connections := after.connections)
  }

  /** One removal and then the rest of the list, on one lane. */
  lemma RemovalAt(before: Connections, edges: seq<FlatEdge>, kept: seq<Edge>, key: LaneKey)
    requires edges != [] && kept == Keep(LaneAt(before, KeyOf(edges[0])), (e: Edge) => !Matches(e, edges[0]))
    ensures Keep(LaneAt(WithLane(before, KeyOf(edges[0]), kept), key), Unlisted(Project(edges[1..], key)))
         == Keep(LaneAt(before, key), Unlisted(Project(edges, key)))
  {
    hide LaneAt, WithLane, Matches;
    WithLaneAt(before, KeyOf(edges[0]), kept, key);
    if key == KeyOf(edges[0]) {
      assert Project(edges, key) == [edges[0]] + Project(edges[1..], key);
      assert forall flat :: flat in Project(edges, key) <==> flat == edges[0] || flat in Project(edges[1..], key);
      KeepKeep(LaneAt(before, key), (e: Edge) => !Matches(e, edges[0]), Unlisted(Project(edges[1..], key)),
               Unlisted(Project(edges, key)));
    } else {
      assert Project(edges, key) == Project(edges[1..], key);
    }
  }

  lemma IndexedHead(flat: FlatEdge, rest: seq<FlatEdge>)
    ensures IndexedAll([flat] + rest) == [Indexed(flat)] + IndexedAll(rest)
  {
  }

  lemma JoinedTwice<T>(a: seq<T>, b: seq<T>, c: seq<T>)
    ensures (a + b) + c == a + (b + c)
  {
  }

  /** One addition and then the rest of the list, on one lane. */
  lemma AdditionAt(before: Connections, edges: seq<FlatEdge>, grown: seq<Edge>, key: LaneKey)
    requires edges != [] && grown == LaneAt(before, KeyOf(edges[0])) + [Indexed(edges[0])]
    ensures LaneAt(WithLane(before, KeyOf(edges[0]), grown), key) + IndexedAll(Project(edges[1..], key))
         == LaneAt(before, key) + IndexedAll(Project(edges, key))
  {
    hide LaneAt, WithLane, Indexed, IndexedAll;
    WithLaneAt(before, KeyOf(edges[0]), grown, key);
    if key == KeyOf(edges[0]) {
      IndexedHead(edges[0], Project(edges[1..], key));
      JoinedTwice(LaneAt(before, key), [Indexed(edges[0])], IndexedAll(Project(edges[1..], key)));
    } else {
      assert Project(edges, key) == Project(edges[1..], key);
    }
  }

  lemma NothingRemoved(connections: Connections, key: LaneKey)
    ensures Keep(LaneAt(connections, key), Unlisted(Project([], key))) == LaneAt(connections, key)
  {
    hide LaneAt;
    KeepAll(LaneAt(connections, key), Unlisted(Project([], key)));
  }

  lemma {:induction false} RemovalsRun(w: Workflow, edges: seq<FlatEdge>)
    requires NoNullLanes(w.connections)
    ensures var out := ApplyAll(w, Removals(edges));
            out.Done? && OnlyLanesChange(w, out.workflow)
            && forall key :: LaneAt(out.workflow.connections, key)
                             == Keep(LaneAt(w.connections, key), Unlisted(Project(edges, key)))
    decreases |edges|
  {
    hide NoNullLanes, LaneAt, LaneOf, WithLane, Matches, Project, Unlisted;
    if edges == [] {
      forall key { NothingRemoved(w.connections, key); }
    } else {
      var at, rest := KeyOf(edges[0]), edges[1..];
      var drop := (e: Edge) => !Matches(e, edges[0]);
      var kept := Keep(LaneAt(w.connections, at), drop);
      LaneOfIs(w.connections, at);
      WithLaneKeepsLanes(w.connections, at, kept);
      var next := w.(connections := WithLane(w.connections, at, kept));
      assert ApplyOp(w, RemoveConnection(edges[0])) == Done(next);
      RemovalsRun(next, rest);
      assert Removals(edges)[0] == RemoveConnection(edges[0]) && Removals(edges)[1..] == Removals(rest);
      forall key { RemovalAt(w.connections, edges, kept, key); }
    }
  }

  lemma NothingAdded(connections: Connections, key: LaneKey)
    ensures LaneAt(connections, key) + IndexedAll(Project([], key)) == LaneAt(connections, key)
  {
  }

  lemma {:induction false} AdditionsRun(w: Workflow, edges: seq<FlatEdge>)
    requires NoNullLanes(w.connections)
    ensures var out := ApplyAll(w, Additions(edges));
            out.Done? && OnlyLanesChange(w, out.workflow)
            && forall key :: LaneAt(out.workflow.connections, key)
                             == LaneAt(w.connections, key) + IndexedAll(Project(edges, key))
    decreases |edges|
  {
    hide NoNullLanes, LaneAt, LaneOf, WithLane, Indexed, Project;
    if edges == [] {
      forall key { NothingAdded(w.connections, key); }
    } else {
      var at, rest := KeyOf(edges[0]), edges[1..];
      var grown := LaneAt(w.connections, at) + [Indexed(edges[0])];
      LaneOfIs(w.connections, at);
      WithLaneKeepsLanes(w.connections, at, grown);
      var next := w.(connections := WithLane(w.connections, at, grown));
      assert ApplyOp(w, AddConnection(edges[0])) == Done(next);
      AdditionsRun(next, rest);
      assert Additions(edges)[0] == AddConnection(edges[0]) && Additions(edges)[1..] == Additions(rest);
      forall key { AdditionAt(w.connections, edges, grown, key); }
    }
  }

  // ---- One lane from start to end ----

  /** Only an edge without an index, between nodes that stay, escapes the removals. */
  function Survives(source: string, gone: set<string>): Edge -> bool {
    (e: Edge) => e.index.None? && source !in gone && e.node !in gone
  }

  function Reindexed(key: LaneKey, edges: seq<Edge>): seq<Edge> {
    seq(|edges|, i requires 0 <= i < |edges| => Edge(edges[i].node, key.kind, Some(IndexOrZero(edges[i]))))
  }

  lemma {:induction false} FlattenAt(key: LaneKey, edges: seq<Edge>)
    ensures |Flatten(key, edges)| == |edges|
    ensures forall i | 0 <= i < |edges| ::
      Flatten(key, edges)[i] == FlatEdge(key.source, key.kind, key.lane, edges[i].node, IndexOrZero(edges[i]))
  {
    if edges != [] { FlattenAt(key, edges[1..]); }
  }

  lemma IndexedFlatten(key: LaneKey, edges: seq<Edge>)
    ensures IndexedAll(Flatten(key, edges)) == Reindexed(key, edges)
  {
    FlattenAt(key, edges);
  }

  /** An edge of the lane is listed, as its own flat form, exactly when it carries an index. */
  lemma ListedIfIndexed(key: LaneKey, edges: seq<Edge>, edge: Edge)
    requires edge in edges
    ensures Listed(edge, Flatten(key, edges)) <==> edge.index.Some?
  {
    FlattenAt(key, edges);
    var i :| 0 <= i < |edges| && edges[i] == edge;
    assert Flatten(key, edges)[i] in Flatten(key, edges);
  }

  lemma LaneSurvivors(key: LaneKey, edges: seq<Edge>, gone: set<string>)
    ensures Keep(Keep(edges, Outside(key.source, gone)), Unlisted(Flatten(key, edges)))
         == Keep(edges, Survives(key.source, gone))
  {
    forall e | e in edges
      ensures Survives(key.source, gone)(e) <==> Outside(key.source, gone)(e) && Unlisted(Flatten(key, edges))(e) {
      ListedIfIndexed(key, edges, e);
    }
    KeepKeep(edges, Outside(key.source, gone), Unlisted(Flatten(key, edges)), Survives(key.source, gone));
  }

  // ---- The whole result ----

  /** The target nodes that do not keep their place: absent from the source, or of another type there. */
  function Gone(source: seq<Node>, target: seq<Node>): set<string> {
    Retyped(source, ByName(target)) + (NamesOf(target) - NamesOf(source))
  }

  function RebuiltLane(source: Workflow, target: Workflow, key: LaneKey): seq<Edge> {
    Keep(LaneAt(target.connections, key), Survives(key.source, Gone(source.nodes, target.nodes)))
    + Reindexed(key, LaneAt(source.connections, key))
  }

  function NewDescription(source: Workflow, target: Workflow): Option<string> {
    if !NonEmpty(source.description) then target.description
    else if |source.description.value| > DESCRIPTION_LIMIT then Some(source.description.value[..DESCRIPTION_LIMIT])
    else source.description
  }

  /** Trailing lanes without edges are trimmed and nothing empty is left. */
  ghost predicate Tidy(connections: Connections) {
    forall s | s in connections :: connections[s] != map[]
      && forall t | t in connections[s] ::
           connections[s][t] != []
           && LaneEdges(connections[s][t][|connections[s][t]| - 1]) != []
  }

  ghost predicate NodesRebuilt(result: seq<Node>, source: seq<Node>, target: seq<Node>, maps: Maps, overlay: Overlay) {
    && UniqueNames(result)
    && (forall i | 0 <= i < |source| ::
          Find(result, source[i].name) == Some(RebuiltNode(source, i, ByName(target), maps, overlay)))
    && (forall name | name !in NamesOf(source) :: Find(result, name) == None)
    && (NamesOf(source) == NamesOf(target) && Gone(source, target) == {} ==> SameNames(target, result))
  }

  ghost predicate LanesRebuilt(result: Connections, source: Workflow, target: Workflow) {
    forall key :: LaneAt(result, key) == RebuiltLane(source, target, key)
  }

  ghost predicate IsRebuild(result: Workflow, source: Workflow, target: Workflow, maps: Maps, overlay: Overlay) {
    && NodesRebuilt(result.nodes, source.nodes, target.nodes, maps, overlay)
    && LanesRebuilt(result.connections, source, target)
    && result.settings == Merge(target.settings, SettingsUpdate(source.settings, maps))
    && result.description == NewDescription(source, target)
  }

  lemma {:induction false} ByNameIsFind(nodes: seq<Node>)
    requires UniqueNames(nodes)
    ensures ByName(nodes).Keys == NamesOf(nodes)
    ensures forall name :: NodeAt(ByName(nodes), name) == Find(nodes, name)
    ensures forall name | name in ByName(nodes) :: ByName(nodes)[name].name == name
  {
    if nodes != [] {
      var front, last := nodes[..|nodes| - 1], nodes[|nodes| - 1];
      ByNameIsFind(front);
      assert nodes == front + [last];
      assert forall n | n in front :: n.name != last.name;
      forall name ensures Find(nodes, name) == if name == last.name then Some(last) else Find(front, name) {
        FindAppended(front, last, name);
      }
      assert forall n :: n in nodes <==> n in front || n == last;
    }
  }

  /** First the source nodes, then the removal of the rest: what the two leave by name. */
  lemma NodesAssembled(source: seq<Node>, target: Workflow, middle: Workflow, after: Workflow, maps: Maps, overlay: Overlay)
    requires UniqueNames(target.nodes)
    requires NodesDone(target, middle, source, ByName(target.nodes), maps, overlay)
    requires ExtrasDone(middle, after, NamesOf(target.nodes) - NamesOf(source))
    ensures NodesRebuilt(after.nodes, source, target.nodes, maps, overlay)
  {
    hide LanesOutside, NoNullLanes, RebuiltNode, UniqueNames, SameNames, InPlace;
    var byName := ByName(target.nodes);
    ByNameIsFind(target.nodes);
    hide ByName, Find;
    forall name | name !in NamesOf(source) ensures Find(after.nodes, name) == None {
      FindsSome(target.nodes, name);
    }
    forall i | 0 <= i < |source|
      ensures Find(after.nodes, source[i].name) == Some(RebuiltNode(source, i, byName, maps, overlay)) {
      assert source[i].name in NamesOf(source);
    }
    if NamesOf(source) == NamesOf(target.nodes) && Gone(source, target.nodes) == {} {
      assert Retyped(source, byName) == {};
      AllInPlace(source, target.nodes, byName);
    }
  }

  lemma NodePartRuns(source: Workflow, target: Workflow, maps: Maps, overlay: Overlay)
    requires UniqueNames(source.nodes) && UniqueNames(target.nodes) && NoNullLanes(target.connections)
    ensures var out := ApplyAll(target, NodePart(source, target, maps, overlay));
            out.Done?
            && NodesRebuilt(out.workflow.nodes, source.nodes, target.nodes, maps, overlay)
            && NoNullLanes(out.workflow.connections)
            && LanesOutside(target.connections, out.workflow.connections, Gone(source.nodes, target.nodes))
            && out.workflow.settings == target.settings && out.workflow.description == target.description
  {
    var byName := ByName(target.nodes);
    ByNameIsFind(target.nodes);
    hide LanesOutside, NoNullLanes, RebuiltNode, UniqueNames, NodeOps, ExtraOps, Retyped, ApplyAll, SameNames, InPlace,
         ByName, NodesRebuilt;
    forall node | node in source.nodes ensures Find(target.nodes, node.name) == NodeAt(byName, node.name) {}
    hide Find;
    NodeOpsRun(target, source.nodes, byName, maps, overlay);
    var middle := ApplyAll(target, NodeOps(source.nodes, byName, maps, overlay)).workflow;
    ExtraOpsRun(middle, target.nodes, NamesOf(source.nodes));
    var after := ApplyAll(middle, ExtraOps(target.nodes, NamesOf(source.nodes))).workflow;
    ApplyConcat(target, NodeOps(source.nodes, byName, maps, overlay), ExtraOps(target.nodes, NamesOf(source.nodes)));
    MoreGone(target.connections, middle.connections, after.connections, Retyped(source.nodes, byName),
             NamesOf(target.nodes) - NamesOf(source.nodes));
    NodesAssembled(source.nodes, target, middle, after, maps, overlay);
  }

  lemma AllInPlace(source: seq<Node>, target: seq<Node>, byName: map<string, Node>)
    requires NamesOf(source) == NamesOf(target) && Retyped(source, byName) == {}
    requires byName.Keys == NamesOf(target)
    ensures forall node | node in source :: InPlace(node, NodeAt(byName, node.name))
    ensures NamesOf(target) - NamesOf(source) == {}
  {
    forall node | node in source ensures InPlace(node, NodeAt(byName, node.name)) {
      assert node.name in NamesOf(source);
      assert node.name !in Retyped(source, byName);
    }
  }

  lemma ConnectionPartRuns(w: Workflow, source: Workflow, target: Workflow, maps: Maps,
                           sourceEdges: seq<FlatEdge>, targetEdges: seq<FlatEdge>, gone: set<string>)
    requires NoNullLanes(w.connections) && LanesOutside(target.connections, w.connections, gone)
    requires ListsEdges(sourceEdges, source.connections) && ListsEdges(targetEdges, target.connections)
    ensures var out := ApplyAll(w, ConnectionPart(source, maps, sourceEdges, targetEdges));
            out.Done? && NoNullLanes(out.workflow.connections)
            && (forall key :: LaneAt(out.workflow.connections, key)
                  == Keep(LaneAt(target.connections, key), Survives(key.source, gone))
                     + Reindexed(key, LaneAt(source.connections, key)))
            && out.workflow.nodes == w.nodes
            && out.workflow.settings == Merge(w.settings, SettingsUpdate(source.settings, maps))
            && out.workflow.description == NewDescription(source, w)
  {
    hide NoNullLanes, LaneAt, SettingsUpdate, Merge, Survives, Unlisted, Outside;
    RemovalsRun(w, targetEdges);
    var removed := ApplyAll(w, Removals(targetEdges)).workflow;
    AdditionsRun(removed, sourceEdges);
    var added := ApplyAll(removed, Additions(sourceEdges)).workflow;
    ApplyConcat(w, Removals(targetEdges), Additions(sourceEdges));
    ApplyConcat(w, Removals(targetEdges) + Additions(sourceEdges), WorkflowOps(source, maps));
    forall key ensures LaneAt(added.connections, key)
                    == Keep(LaneAt(target.connections, key), Survives(key.source, gone))
                       + Reindexed(key, LaneAt(source.connections, key)) {
      LaneSurvivors(key, LaneAt(target.connections, key), gone);
      IndexedFlatten(key, LaneAt(source.connections, key));
    }
    WorkflowOpsRun(added, source, maps);
  }

  lemma WorkflowOpsRun(w: Workflow, source: Workflow, maps: Maps)
    ensures ApplyAll(w, WorkflowOps(source, maps))
         == Done(w.(settings := Merge(w.settings, SettingsUpdate(source.settings, maps)),
                    description := NewDescription(source, w)))
  {
    hide SettingsUpdate, Restrict;
    var update := SettingsUpdate(source.settings, maps);
    var first := if update == NO_SETTINGS then [] else [SetWorkflowSettings(update)];
    var second := if NonEmpty(source.description) then [SetWorkflowMetadata(NewDescription(source, w).value)] else [];
    assert WorkflowOps(source, maps) == first + second;
    ApplyConcat(w, first, second);
    assert w.settings.common + map[] == w.settings.common;
  }

  /** The final pass leaves tidy connections, whatever it is given. */
  lemma CleanIsTidy(connections: Connections)
    ensures Tidy(Clean(connections))
  {
    hide Trim;
  }

  /**
   Compile, then run: nothing fails, and the result is the rebuild. The names must be unique
   on both sides and the target must hold no null lane.
   */
  lemma RebuildRuns(source: Workflow, target: Workflow, maps: Maps, overlay: Overlay, ops: seq<Operation>)
    requires UniqueNames(source.nodes) && UniqueNames(target.nodes) && NoNullLanes(target.connections)
    requires Compiled(ops, source, target, maps, overlay)
    ensures Interpret(target, ops).Done?
    ensures IsRebuild(Interpret(target, ops).workflow, source, target, maps, overlay)
  {
    hide NodesRebuilt, NoNullLanes, LanesOutside, LaneAt, UniqueNames, Gone, Clean, NodePart, ConnectionPart,
         ListsEdges, SettingsUpdate, Merge, Reindexed, Survives;
    var sourceEdges, targetEdges :|
      ListsEdges(sourceEdges, source.connections) && ListsEdges(targetEdges, target.connections)
      && ops == NodePart(source, target, maps, overlay) + ConnectionPart(source, maps, sourceEdges, targetEdges);
    NodePartRuns(source, target, maps, overlay);
    var middle := ApplyAll(target, NodePart(source, target, maps, overlay)).workflow;
    ConnectionPartRuns(middle, source, target, maps, sourceEdges, targetEdges, Gone(source.nodes, target.nodes));
    ApplyConcat(target, NodePart(source, target, maps, overlay),
                ConnectionPart(source, maps, sourceEdges, targetEdges));
    var raw := ApplyAll(target, ops).workflow;
    forall key ensures LaneAt(Clean(raw.connections), key) == RebuiltLane(source, target, key) {
      CleanAt(raw.connections, key);
    }
  }
}
