/**
 Null lanes in the target. The interpreter cannot filter or extend one: exactly when a compiled
 list stops on it, and what holds of the result when it does not.

 A run that does not stop is the run on the target with its null lanes made empty, so that what is
 known of lane lists without nulls carries over. Removing a node drops the null lanes of its own
 source before anything else can meet them.
 */
module CutoverNulls {
  import opened Prelude
  import opened JsonValues
  import opened CutoverModel
  import opened CutoverApply
  import opened CutoverBuild
  import opened CutoverPhases
  import opened CutoverResult

  predicate NullAt(connections: Connections, key: LaneKey) {
    key.source in connections && key.kind in connections[key.source]
    && key.lane < |connections[key.source][key.kind]| && connections[key.source][key.kind][key.lane].None?
  }

  function ScrubLanes(lanes: seq<Lane>): seq<Lane> {
    seq(|lanes|, i requires 0 <= i < |lanes| => Some(LaneEdges(lanes[i])))
  }

  /** The same graph with an empty lane for every null one. */
  function Scrub(connections: Connections): Connections {
    map source | source in connections ::
      map kind | kind in connections[source] :: ScrubLanes(connections[source][kind])
  }

  function Scrubbed(w: Workflow): Workflow {
    w.(connections := Scrub(w.connections))
  }

  lemma ScrubAt(connections: Connections)
    ensures NoNullLanes(Scrub(connections))
    ensures forall key :: LaneAt(Scrub(connections), key) == LaneAt(connections, key)
  {
  }

  lemma NoNullsToScrub(connections: Connections)
    requires forall key :: !NullAt(connections, key)
    ensures Scrub(connections) == connections
  {
    forall s | s in connections ensures Scrub(connections)[s] == connections[s] {
      forall t | t in connections[s] ensures ScrubLanes(connections[s][t]) == connections[s][t] {
        forall i | 0 <= i < |connections[s][t]| ensures connections[s][t][i].Some? {
          assert !NullAt(connections, LaneKey(s, t, i));
        }
      }
    }
  }

  lemma BesideIsAnother(connections: Connections, name: string)
    ensures NullLaneBeside(connections, name) <==> exists key :: NullAt(connections, key) && key.source != name
  {
    if NullLaneBeside(connections, name) {
      var s :| s in connections && s != name && exists t | t in connections[s] :: None in connections[s][t];
      var t :| t in connections[s] && None in connections[s][t];
      var i :| 0 <= i < |connections[s][t]| && connections[s][t][i] == None;
      assert NullAt(connections, LaneKey(s, t, i));
    }
    if key :| NullAt(connections, key) && key.source != name {
      assert connections[key.source][key.kind][key.lane] == None;
      assert None in connections[key.source][key.kind];
    }
  }

  ghost predicate SameNulls(a: Connections, b: Connections) {
    forall key :: NullAt(a, key) <==> NullAt(b, key)
  }

  /** The operation meets a null lane. */
  predicate StopsAt(connections: Connections, op: Operation) {
    match op
    case RemoveNode(name) => NullLaneBeside(connections, name)
    case RemoveConnection(edge) => NullAt(connections, KeyOf(edge))
    case AddConnection(edge) => NullAt(connections, KeyOf(edge))
    case _ => false
  }

  // ---- One operation, with the null lanes and with empty ones ----

  lemma LaneOfScrubbed(connections: Connections, key: LaneKey)
    ensures LaneOf(connections, key).None? <==> NullAt(connections, key)
    ensures !NullAt(connections, key) ==> LaneOf(Scrub(connections), key) == LaneOf(connections, key)
  {
  }

  lemma PaddedScrubs(lanes: seq<Lane>, n: nat, edges: seq<Edge>)
    ensures ScrubLanes(Padded(lanes, n)[n := Some(edges)]) == Padded(ScrubLanes(lanes), n)[n := Some(edges)]
  {
  }

  lemma ScrubLanesOf(connections: Connections, source: string, kind: string)
    ensures LanesOf(Scrub(connections), source, kind) == ScrubLanes(LanesOf(connections, source, kind))
  {
  }

  lemma WithLaneScrubs(connections: Connections, key: LaneKey, edges: seq<Edge>)
    ensures Scrub(WithLane(connections, key, edges)) == WithLane(Scrub(connections), key, edges)
  {
    ScrubLanesOf(connections, key.source, key.kind);
    PaddedScrubs(LanesOf(connections, key.source, key.kind), key.lane, edges);
    hide ScrubLanes, Padded, LanesOf;
    var after := WithLane(connections, key, edges);
    var a, b := Scrub(after), WithLane(Scrub(connections), key, edges);
    assert a.Keys == b.Keys;
    forall s | s in a ensures a[s] == b[s] {
      if s == key.source {
        assert a[s].Keys == b[s].Keys;
      } else {
        assert after[s] == connections[s];
      }
    }
  }

  lemma WithLaneKeepsNulls(connections: Connections, key: LaneKey, edges: seq<Edge>)
    requires !NullAt(connections, key)
    ensures SameNulls(connections, WithLane(connections, key, edges))
  {
    var lanes := LanesOf(connections, key.source, key.kind);
    var padded := Padded(lanes, key.lane)[key.lane := Some(edges)];
    assert forall i | 0 <= i < |padded| :: padded[i].None? <==> i < |lanes| && i != key.lane && lanes[i].None?;
    hide Padded;
    forall other ensures NullAt(connections, other) <==> NullAt(WithLane(connections, key, edges), other) {}
  }

  lemma LanesWithoutScrubs(lanes: seq<Lane>, name: string)
    ensures ScrubLanes(LanesWithout(lanes, name)) == LanesWithout(ScrubLanes(lanes), name)
  {
  }

  lemma WithoutNameScrubs(connections: Connections, name: string)
    ensures Scrub(WithoutName(connections, name)) == WithoutName(Scrub(connections), name)
  {
    forall s | s in connections && s != name
      ensures Scrub(WithoutName(connections, name))[s] == WithoutName(Scrub(connections), name)[s]
    {
      WithoutNameScrubsOf(connections, name, s);
    }
    assert Scrub(WithoutName(connections, name)).Keys == WithoutName(Scrub(connections), name).Keys;
    hide Scrub, WithoutName;
  }

  lemma WithoutNameScrubsOf(connections: Connections, name: string, source: string)
    requires source in connections && source != name
    ensures source in Scrub(WithoutName(connections, name)) && source in WithoutName(Scrub(connections), name)
    ensures Scrub(WithoutName(connections, name))[source] == WithoutName(Scrub(connections), name)[source]
  {
    hide ScrubLanes, LanesWithout;
    forall kind | kind in connections[source]
      ensures ScrubLanes(LanesWithout(connections[source][kind], name))
           == LanesWithout(ScrubLanes(connections[source][kind]), name)
    {
      LanesWithoutScrubs(connections[source][kind], name);
    }
  }

  lemma WithoutNameLeavesNoNull(connections: Connections, name: string)
    requires !NullLaneBeside(connections, name)
    ensures forall key :: !NullAt(WithoutName(connections, name), key)
  {
    BesideIsAnother(connections, name);
    forall key ensures !NullAt(WithoutName(connections, name), key) {
      assert NullAt(WithoutName(connections, name), key) ==> NullAt(connections, key) && key.source != name;
    }
  }

  lemma StoppedStep(w: Workflow, op: Operation)
    ensures StopsAt(w.connections, op) ==> ApplyOp(w, op) == Failed(NullLane)
  {
    if op.RemoveConnection? || op.AddConnection? { LaneOfScrubbed(w.connections, KeyOf(op.edge)); }
  }

  /** An operation that meets no null lane does the same with empty lanes in their place. */
  lemma ScrubbedStep(w: Workflow, op: Operation)
    requires !StopsAt(w.connections, op)
    ensures var out := ApplyOp(w, op);
            ApplyOp(Scrubbed(w), op) == (if out.Done? then Done(Scrubbed(out.workflow)) else out)
            && (out.Done? && !op.RemoveNode? ==> SameNulls(w.connections, out.workflow.connections))
            && (out.Done? && op.RemoveNode? ==> forall key :: !NullAt(out.workflow.connections, key))
  {
    hide Scrub, LaneOf, WithLane, WithoutName, NullAt, Keep;
    match op
    case RemoveNode(name) =>
      WithoutNameScrubs(w.connections, name);
      WithoutNameLeavesNoNull(w.connections, name);
      ScrubAt(w.connections);
      WithoutNameKeepsLanes(Scrub(w.connections), name);
    case RemoveConnection(edge) =>
      LaneOfScrubbed(w.connections, KeyOf(edge));
      var kept := Keep(LaneOf(w.connections, KeyOf(edge)).value, (e: Edge) => !Matches(e, edge));
      WithLaneScrubs(w.connections, KeyOf(edge), kept);
      WithLaneKeepsNulls(w.connections, KeyOf(edge), kept);
    case AddConnection(edge) =>
      LaneOfScrubbed(w.connections, KeyOf(edge));
      var grown := LaneOf(w.connections, KeyOf(edge)).value + [Indexed(edge)];
      WithLaneScrubs(w.connections, KeyOf(edge), grown);
      WithLaneKeepsNulls(w.connections, KeyOf(edge), grown);
    case _ =>
  }

  // ---- A list of operations ----

  /** Some operation of the list meets a null lane; the first removal of a node leaves none behind. */
  predicate StopsAtNull(connections: Connections, ops: seq<Operation>)
    decreases |ops|
  {
    ops != []
    && (StopsAt(connections, ops[0]) || (!ops[0].RemoveNode? && StopsAtNull(connections, ops[1..])))
  }

  /** The same nodes, settings, description and edges of every lane. */
  ghost predicate SameButNulls(a: Workflow, b: Workflow) {
    && a.nodes == b.nodes && a.settings == b.settings && a.description == b.description
    && forall key :: LaneAt(a.connections, key) == LaneAt(b.connections, key)
  }

  lemma SameNullsStop(a: Connections, b: Connections, op: Operation)
    requires SameNulls(a, b)
    ensures StopsAt(a, op) <==> StopsAt(b, op)
  {
    hide NullAt, NullLaneBeside;
    if op.RemoveNode? {
      BesideIsAnother(a, op.nodeName);
      BesideIsAnother(b, op.nodeName);
    }
  }

  /** The run with null lanes against the run with empty ones: it stops on a null lane, or does the same. */
  lemma {:induction false} ScrubbedRun(w: Workflow, ops: seq<Operation>, before: Connections)
    requires SameNulls(before, w.connections) && ApplyAll(Scrubbed(w), ops).Done?
    ensures StopsAtNull(before, ops) ==> ApplyAll(w, ops) == Failed(NullLane)
    ensures !StopsAtNull(before, ops) ==>
              ApplyAll(w, ops).Done? && SameButNulls(ApplyAll(w, ops).workflow, ApplyAll(Scrubbed(w), ops).workflow)
    decreases |ops|
  {
    hide SameNulls, StopsAt, ApplyOp, Scrub, NullAt, LaneAt;
    if ops == [] {
      ScrubAt(w.connections);
    } else {
      SameNullsStop(before, w.connections, ops[0]);
      StoppedStep(w, ops[0]);
      if !StopsAt(before, ops[0]) {
        ScrubbedStep(w, ops[0]);
        var next := ApplyOp(w, ops[0]).workflow;
        if ops[0].RemoveNode? {
          NoNullsToScrub(next.connections);
        } else {
          SameNullsChain(before, w.connections, next.connections);
          ScrubbedRun(next, ops[1..], before);
        }
      }
    }
  }

  lemma SameNullsChain(a: Connections, b: Connections, c: Connections)
    requires SameNulls(a, b) && SameNulls(b, c)
    ensures SameNulls(a, c)
  {
    hide NullAt;
  }

  // ---- The compiled list ----

  predicate IsNodeOp(op: Operation) {
    !op.RemoveConnection? && !op.AddConnection?
  }

  /** The name in the first removeNode of a list. */
  function FirstRemoved(ops: seq<Operation>): Option<string> {
    if ops == [] then None
    else if ops[0].RemoveNode? then Some(ops[0].nodeName)
    else FirstRemoved(ops[1..])
  }

  lemma {:induction false} NodeOpsStop(connections: Connections, a: seq<Operation>, b: seq<Operation>)
    requires forall op | op in a :: IsNodeOp(op)
    ensures StopsAtNull(connections, a + b)
       <==> match FirstRemoved(a) { case Some(name) => NullLaneBeside(connections, name) case None => StopsAtNull(connections, b) }
    decreases |a|
  {
    hide NullAt, NullLaneBeside;
    if a == [] {
      assert a + b == b;
    } else {
      assert (a + b)[1..] == a[1..] + b && a[0] in a;
      NodeOpsStop(connections, a[1..], b);
    }
  }

  lemma ChunkIsNodeOps(node: Node, existing: Option<Node>, parameters: map<string, Json>, credentials: Credentials)
    ensures forall op | op in NodeChunk(node, existing, parameters, credentials) :: IsNodeOp(op)
  {
    CredentialOpsAreNodeOps(node.name, credentials);
    hide PositionOf, Get, Truth, FreshNode, NODE_SETTING_KEYS, Restrict;
  }

  lemma {:induction false} CredentialOpsAreNodeOps(name: string, credentials: Credentials)
    ensures forall op | op in CredentialOps(name, credentials) :: IsNodeOp(op)
  {
    if credentials != [] { CredentialOpsAreNodeOps(name, credentials[1..]); }
  }

  lemma {:induction false} NodeOpsAreNodeOps(source: seq<Node>, target: map<string, Node>, maps: Maps, overlay: Overlay)
    ensures forall op | op in NodeOps(source, target, maps, overlay) :: IsNodeOp(op)
    decreases |source|
  {
    hide IsNodeOp, NodeChunk, WantedParameters, MapCredentials, RestOfOverlay;
    if source != [] {
      ChunkIsNodeOps(source[0], NodeAt(target, source[0].name), WantedParameters(source[0], maps, overlay),
                     MapCredentials(source[0].credentials, maps));
      NodeOpsAreNodeOps(source[1..], target, maps, RestOfOverlay(source[0], overlay));
    }
  }

  lemma {:induction false} ExtraOpsAreNodeOps(nodes: seq<Node>, seen: set<string>)
    ensures forall op | op in ExtraOps(nodes, seen) :: IsNodeOp(op)
    decreases |nodes|
  {
    if nodes != [] {
      ExtraOpsAreNodeOps(nodes[1..], seen);
      ExtraOpsAreNodeOps(nodes[1..], seen + {nodes[0].name});
    }
  }

  lemma {:induction false} EdgeOpsStop(connections: Connections, edges: seq<FlatEdge>, rest: seq<Operation>)
    ensures StopsAtNull(connections, Removals(edges) + rest)
       <==> (exists e | e in edges :: NullAt(connections, KeyOf(e))) || StopsAtNull(connections, rest)
    ensures StopsAtNull(connections, Additions(edges) + rest)
       <==> (exists e | e in edges :: NullAt(connections, KeyOf(e))) || StopsAtNull(connections, rest)
    decreases |edges|
  {
    hide NullAt;
    if edges == [] {
      assert Removals(edges) + rest == rest && Additions(edges) + rest == rest;
    } else {
      EdgeOpsStop(connections, edges[1..], rest);
      assert (Removals(edges) + rest)[1..] == Removals(edges[1..]) + rest;
      assert (Additions(edges) + rest)[1..] == Additions(edges[1..]) + rest;
      assert forall e :: e in edges <==> e == edges[0] || e in edges[1..];
    }
  }

  /** No edge is listed for a null lane of the graph itself; one is for any other lane that has edges. */
  lemma ListedLane(connections: Connections, edges: seq<FlatEdge>, key: LaneKey)
    requires ListsEdges(edges, connections)
    ensures (exists e | e in edges :: KeyOf(e) == key) <==> LaneAt(connections, key) != []
  {
    hide LaneAt;
    assert Project(edges, key) == Flatten(key, LaneAt(connections, key));
    if LaneAt(connections, key) != [] { assert Project(edges, key)[0] in Project(edges, key); }
    if e :| e in edges && KeyOf(e) == key { assert e in Project(edges, key); }
  }

  /** A lane that is null in the target and has an edge in the source. */
  ghost predicate NullForAnEdge(source: Connections, target: Connections) {
    exists key :: NullAt(target, key) && LaneAt(source, key) != []
  }

  lemma ConnectionPartStops(source: Workflow, target: Workflow, maps: Maps, sourceEdges: seq<FlatEdge>, targetEdges: seq<FlatEdge>)
    requires ListsEdges(sourceEdges, source.connections) && ListsEdges(targetEdges, target.connections)
    ensures StopsAtNull(target.connections, ConnectionPart(source, maps, sourceEdges, targetEdges))
       <==> NullForAnEdge(source.connections, target.connections)
  {
    var c := target.connections;
    var last := WorkflowOps(source, maps);
    assert ConnectionPart(source, maps, sourceEdges, targetEdges) == Removals(targetEdges) + (Additions(sourceEdges) + last);
    EdgeOpsStop(c, targetEdges, Additions(sourceEdges) + last);
    EdgeOpsStop(c, sourceEdges, last);
    WorkflowOpsNeverStop(c, source, maps);
    forall e | e in targetEdges ensures !NullAt(c, KeyOf(e)) { ListedLane(c, targetEdges, KeyOf(e)); }
    hide LaneAt, ListsEdges, WorkflowOps;
    if e :| e in sourceEdges && NullAt(c, KeyOf(e)) { ListedLane(source.connections, sourceEdges, KeyOf(e)); }
    if key :| NullAt(c, key) && LaneAt(source.connections, key) != [] {
      ListedLane(source.connections, sourceEdges, key);
      var e :| e in sourceEdges && KeyOf(e) == key;
      assert NullAt(c, KeyOf(e));
    }
  }

  lemma WorkflowOpsNeverStop(connections: Connections, source: Workflow, maps: Maps)
    ensures !StopsAtNull(connections, WorkflowOps(source, maps))
  {
    hide SettingsUpdate, NullAt;
    NeverStops(connections, WorkflowOps(source, maps));
  }

  lemma {:induction false} NeverStops(connections: Connections, ops: seq<Operation>)
    requires forall op | op in ops :: IsNodeOp(op) && !op.RemoveNode?
    ensures !StopsAtNull(connections, ops)
    decreases |ops|
  {
    if ops != [] {
      assert ops[0] in ops;
      NeverStops(connections, ops[1..]);
    }
  }

  /**
   What a caller can look up: a node is removed while another source's lane is null, or none is
   removed and a lane that is null in the target has an edge in the source.
   */
  ghost predicate NullStops(source: Workflow, target: Workflow, maps: Maps, overlay: Overlay) {
    match FirstRemoved(NodePart(source, target, maps, overlay))
    case Some(name) => NullLaneBeside(target.connections, name)
    case None => NullForAnEdge(source.connections, target.connections)
  }

  lemma CompiledStops(source: Workflow, target: Workflow, maps: Maps, overlay: Overlay, ops: seq<Operation>)
    requires Compiled(ops, source, target, maps, overlay)
    ensures StopsAtNull(target.connections, ops) <==> NullStops(source, target, maps, overlay)
  {
    hide NodeOps, ExtraOps, ConnectionPart, ListsEdges, NullLaneBeside, NullForAnEdge, ByName;
    var sourceEdges, targetEdges :|
      ListsEdges(sourceEdges, source.connections) && ListsEdges(targetEdges, target.connections)
      && ops == NodePart(source, target, maps, overlay) + ConnectionPart(source, maps, sourceEdges, targetEdges);
    NodeOpsAreNodeOps(source.nodes, ByName(target.nodes), maps, overlay);
    ExtraOpsAreNodeOps(target.nodes, NamesOf(source.nodes));
    NodeOpsStop(target.connections, NodePart(source, target, maps, overlay),
                ConnectionPart(source, maps, sourceEdges, targetEdges));
    ConnectionPartStops(source, target, maps, sourceEdges, targetEdges);
  }

  lemma CompiledForScrubbed(source: Workflow, target: Workflow, maps: Maps, overlay: Overlay, ops: seq<Operation>)
    requires Compiled(ops, source, target, maps, overlay)
    ensures Compiled(ops, source, Scrubbed(target), maps, overlay)
  {
    hide NodeOps, ExtraOps, LaneAt, Scrub, ByName;
    var sourceEdges, targetEdges :|
      ListsEdges(sourceEdges, source.connections) && ListsEdges(targetEdges, target.connections)
      && ops == NodePart(source, target, maps, overlay) + ConnectionPart(source, maps, sourceEdges, targetEdges);
    ScrubAt(target.connections);
    assert ListsEdges(targetEdges, Scrubbed(target).connections);
  }

  /** The run stops on a null lane, or leaves what it leaves with empty lanes in the place of null ones. */
  lemma RunsLikeScrubbed(source: Workflow, target: Workflow, maps: Maps, overlay: Overlay, ops: seq<Operation>)
    requires UniqueNames(source.nodes) && UniqueNames(target.nodes)
    requires Compiled(ops, source, target, maps, overlay)
    ensures NullStops(source, target, maps, overlay) ==> Interpret(target, ops) == Failed(NullLane)
    ensures !NullStops(source, target, maps, overlay) ==>
              Interpret(target, ops).Done? && Interpret(Scrubbed(target), ops).Done?
              && SameButNulls(Interpret(target, ops).workflow, Interpret(Scrubbed(target), ops).workflow)
              && IsRebuild(Interpret(Scrubbed(target), ops).workflow, source, Scrubbed(target), maps, overlay)
  {
    hide IsRebuild, Compiled, StopsAtNull, NullStops, ApplyAll, LaneAt, UniqueNames, NoNullLanes, Scrub, Clean;
    CompiledStops(source, target, maps, overlay, ops);
    CompiledForScrubbed(source, target, maps, overlay, ops);
    ScrubAt(target.connections);
    RebuildRuns(source, Scrubbed(target), maps, overlay, ops);
    assert SameNulls(target.connections, target.connections);
    ScrubbedRun(target, ops, target.connections);
    if !NullStops(source, target, maps, overlay) {
      var raw, clean := ApplyAll(target, ops).workflow, ApplyAll(Scrubbed(target), ops).workflow;
      forall key ensures LaneAt(Clean(raw.connections), key) == LaneAt(Clean(clean.connections), key) {
        CleanAt(raw.connections, key);
        CleanAt(clean.connections, key);
      }
    }
  }

  lemma RebuiltLaneScrubbed(source: Workflow, target: Workflow, key: LaneKey)
    ensures RebuiltLane(source, Scrubbed(target), key) == RebuiltLane(source, target, key)
  {
    ScrubAt(target.connections);
    hide LaneAt, Scrub, Gone, Survives, Reindexed;
  }

  /** Compile and run, exactly: the run fails if and only if it meets a null lane, and otherwise leaves the rebuild. */
  lemma CompiledRunsExactly(source: Workflow, target: Workflow, maps: Maps, overlay: Overlay, ops: seq<Operation>)
    requires UniqueNames(source.nodes) && UniqueNames(target.nodes)
    requires Compiled(ops, source, target, maps, overlay)
    ensures NullStops(source, target, maps, overlay) ==> Interpret(target, ops) == Failed(NullLane)
    ensures !NullStops(source, target, maps, overlay) ==>
              Interpret(target, ops).Done? && IsRebuild(Interpret(target, ops).workflow, source, target, maps, overlay)
  {
    hide NodesRebuilt, Compiled, NullStops, LaneAt, UniqueNames, Interpret, SettingsUpdate, Merge, RebuiltLane, Scrub;
    RunsLikeScrubbed(source, target, maps, overlay, ops);
    forall key { RebuiltLaneScrubbed(source, target, key); }
  }

  // ---- Which lanes are null afterwards ----

  /** Without the removal of a node, a run leaves exactly the null lanes there were. */
  lemma {:induction false} NullsKept(w: Workflow, ops: seq<Operation>)
    requires ApplyAll(w, ops).Done? && forall op | op in ops :: !op.RemoveNode?
    ensures SameNulls(w.connections, ApplyAll(w, ops).workflow.connections)
    decreases |ops|
  {
    hide SameNulls, ApplyOp, NullAt, StopsAt;
    if ops == [] {
      SameNullsSelf(w.connections);
    } else {
      assert ops[0] in ops;
      StoppedStep(w, ops[0]);
      ScrubbedStep(w, ops[0]);
      var next := ApplyOp(w, ops[0]).workflow;
      NullsKept(next, ops[1..]);
      SameNullsChain(w.connections, next.connections, ApplyAll(w, ops).workflow.connections);
    }
  }

  lemma SameNullsSelf(connections: Connections)
    ensures SameNulls(connections, connections)
  {
  }

  /** The final pass keeps the null lanes before the last edge of their kind. */
  lemma CleanNull(connections: Connections, key: LaneKey)
    ensures NullAt(Clean(connections), key) <==>
              NullAt(connections, key) && key.lane < |Trim(connections[key.source][key.kind])|
  {
    hide Trim;
    if key.source in connections && key.kind in connections[key.source] {
      TrimIsPrefix(connections[key.source][key.kind]);
      assert Trim(connections[key.source][key.kind]) != [] ==>
               key.kind in CleanOutputs(connections[key.source]) && key.source in Clean(connections);
    }
  }

  lemma TrimIsPrefix(lanes: seq<Lane>)
    ensures |Trim(lanes)| <= |lanes| && forall i | 0 <= i < |Trim(lanes)| :: Trim(lanes)[i] == lanes[i]
  {
  }

  /** A run from tidy connections that moves no lane and no null ends, cleaned, with the null lanes it began with. */
  lemma TidyKeepsNulls(before: Connections, raw: Connections)
    requires Tidy(before) && SameNulls(before, raw)
    requires forall key :: LaneAt(raw, key) == LaneAt(before, key)
    ensures SameNulls(before, Clean(raw))
  {
    forall key ensures NullAt(before, key) <==> NullAt(Clean(raw), key) {
      CleanNull(raw, key);
      assert NullAt(before, key) <==> NullAt(raw, key);
      if NullAt(before, key) { LastEdgeStays(before, raw, key); }
    }
  }

  lemma LastEdgeStays(before: Connections, raw: Connections, key: LaneKey)
    requires Tidy(before) && NullAt(before, key) && NullAt(raw, key)
    requires forall other :: LaneAt(raw, other) == LaneAt(before, other)
    ensures key.lane < |Trim(raw[key.source][key.kind])|
  {
    var last := |before[key.source][key.kind]| - 1;
    assert LaneAt(before, LaneKey(key.source, key.kind, last)) != [];
    assert LaneAt(raw, LaneKey(key.source, key.kind, last)) != [];
    hide Trim, Tidy;
    var lanes := raw[key.source][key.kind];
    assert last < |lanes| && LaneEdges(lanes[last]) != [];
  }
}
