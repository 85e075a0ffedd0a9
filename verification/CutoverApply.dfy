/**
 The operation interpreter of `scripts/vps_cutover_apply.py`.

 Operations edit one node, add or remove a node, add or remove one edge, or set the workflow's
 settings and description. `ApplyOp` is one of them, `ApplyAll` the run over a list, which the
 first failure ends, and `Interpret` adds the final pass that drops connection entries a rebuild
 emptied. The loops of the script are methods proved against these functions. The last part says
 what one operation does to every lane: writing a lane, removing a node, dropping empty entries.
 */
module CutoverApply {
  import opened Prelude
  import opened JsonValues
  import opened CutoverModel

  // UnknownNode is the KeyError, NullLane the TypeError of a null lane, UnknownKind the ValueError.
  datatype Failure = UnknownNode(name: string) | NullLane | UnknownKind(kind: string)

  datatype Applied = Done(workflow: Workflow) | Failed(failure: Failure)

  // ---- Edits of one node ----

  predicate IsEdit(op: Operation) {
    op.UpdateNodeParameters? || op.SetNodeTypeVersion? || op.SetNodeCredential?
    || op.SetNodePosition? || op.SetNodeDisabled? || op.SetNodeSettings?
  }

  function EditNode(node: Node, op: Operation): (edited: Node)
    requires IsEdit(op)
    ensures edited.name == node.name && edited.kind == node.kind && edited.webhookId == node.webhookId
  {
    match op
    case UpdateNodeParameters(_, replace, parameters) =>
      node.(parameters := if replace then parameters else node.parameters + parameters)
    case SetNodeTypeVersion(_, version) => node.(typeVersion := Some(version))
    case SetNodeCredential(_, key, credential) => node.(credentials := Put(node.credentials, key, credential))
    case SetNodePosition(_, position) => node.(position := Some(position))
    case SetNodeDisabled(_, disabled) => node.(disabled := if disabled then Some(JBool(true)) else None)
    case SetNodeSettings(_, settings) => node.(settings := node.settings + settings)
  }

  function WithoutNode(nodes: seq<Node>, name: string): (kept: seq<Node>)
    ensures forall n :: n in kept <==> n in nodes && n.name != name
  {
    if nodes == [] then []
    else (if nodes[0].name != name then [nodes[0]] else []) + WithoutNode(nodes[1..], name)
  }

  // ---- Lanes ----

  function Keep(edges: seq<Edge>, p: Edge -> bool): (kept: seq<Edge>)
    ensures forall e :: e in kept <==> e in edges && p(e)
  {
    if edges == [] then [] else (if p(edges[0]) then [edges[0]] else []) + Keep(edges[1..], p)
  }

  function KeepLane(lane: Lane, p: Edge -> bool): Lane {
    if lane.Some? then Some(Keep(lane.value, p)) else None
  }

  function LanesOf(connections: Connections, source: string, kind: string): seq<Lane> {
    if source in connections && kind in connections[source] then connections[source][kind] else []
  }

  function Padded(lanes: seq<Lane>, lane: nat): (padded: seq<Lane>)
    ensures lane < |padded|
  {
    if lane < |lanes| then lanes else lanes + seq(lane + 1 - |lanes|, _ => Some([]))
  }

  /** `_lane`: the lane itself, created empty when it is not there yet. */
  function LaneOf(connections: Connections, key: LaneKey): Lane {
    Padded(LanesOf(connections, key.source, key.kind), key.lane)[key.lane]
  }

  function WithLane(connections: Connections, key: LaneKey, edges: seq<Edge>): Connections {
    var lanes := Padded(LanesOf(connections, key.source, key.kind), key.lane)[key.lane := Some(edges)];
    var outputs := if key.source in connections then connections[key.source] else map[];
    connections[key.source := outputs[key.kind := lanes]]
  }

  function LanesWithout(lanes: seq<Lane>, name: string): seq<Lane> {
    seq(|lanes|, i requires 0 <= i < |lanes| => KeepLane(lanes[i], (e: Edge) => e.node != name))
  }

  function WithoutName(connections: Connections, name: string): Connections {
    map source | source in connections && source != name ::
      map kind | kind in connections[source] :: LanesWithout(connections[source][kind], name)
  }

  // ---- One operation ----

  function Merge(settings: Settings, update: Settings): Settings {
    Settings(
      settings.common + update.common,
      if update.callerIds.Some? then update.callerIds else settings.callerIds,
      if update.errorWorkflow.Some? then update.errorWorkflow else settings.errorWorkflow)
  }

  predicate Matches(edge: Edge, flat: FlatEdge) {
    edge.node == flat.target && edge.index == Some(flat.index)
  }

  function Indexed(flat: FlatEdge): Edge {
    Edge(flat.target, flat.kind, Some(flat.index))
  }

  /** Some lane of another source is null: filtering it is the TypeError. */
  predicate NullLaneBeside(connections: Connections, name: string) {
    exists s | s in connections && s != name :: exists t | t in connections[s] :: None in connections[s][t]
  }

  function ApplyOp(w: Workflow, op: Operation): Applied {
    match op
    case AddNode(node) => Done(w.(nodes := w.nodes + [node]))
    case RemoveNode(name) =>
      if NullLaneBeside(w.connections, name) then Failed(NullLane)
      else Done(w.(nodes := WithoutNode(w.nodes, name), connections := WithoutName(w.connections, name)))
    case RemoveConnection(flat) =>
      var lane := LaneOf(w.connections, KeyOf(flat));
      if lane.None? then Failed(NullLane)
      else Done(w.(connections := WithLane(w.connections, KeyOf(flat),
                                           Keep(lane.value, (e: Edge) => !Matches(e, flat)))))
    case AddConnection(flat) =>
      var lane := LaneOf(w.connections, KeyOf(flat));
      if lane.None? then Failed(NullLane)
      else Done(w.(connections := WithLane(w.connections, KeyOf(flat), lane.value + [Indexed(flat)])))
    case SetWorkflowSettings(update) => Done(w.(settings := Merge(w.settings, update)))
    case SetWorkflowMetadata(description) => Done(w.(description := Some(description)))
    case UnknownOperation(kind) => Failed(UnknownKind(kind))
    case _ =>
      var i := IndexOf(w.nodes, op.nodeName);
      if i < |w.nodes| then Done(w.(nodes := w.nodes[i := EditNode(w.nodes[i], op)]))
      else Failed(UnknownNode(op.nodeName))
  }

  function ApplyAll(w: Workflow, ops: seq<Operation>): Applied
    decreases |ops|
  {
    if ops == [] then Done(w)
    else match ApplyOp(w, ops[0])
      case Failed(failure) => Failed(failure)
      case Done(next) => ApplyAll(next, ops[1..])
  }

  lemma {:induction false} ApplyConcat(w: Workflow, a: seq<Operation>, b: seq<Operation>)
    ensures ApplyAll(w, a + b)
         == if ApplyAll(w, a).Done? then ApplyAll(ApplyAll(w, a).workflow, b) else ApplyAll(w, a)
    decreases |a|
  {
    if a == [] {
      assert a + b == b;
    } else {
      assert (a + b)[1..] == a[1..] + b;
      if ApplyOp(w, a[0]).Done? { ApplyConcat(ApplyOp(w, a[0]).workflow, a[1..], b); }
    }
  }

  // ---- The final pass ----

  function Trim(lanes: seq<Lane>): (trimmed: seq<Lane>)
    ensures trimmed <= lanes
    ensures trimmed != [] ==> LaneEdges(trimmed[|trimmed| - 1]) != []
    ensures forall i | |trimmed| <= i < |lanes| :: LaneEdges(lanes[i]) == []
  {
    if lanes != [] && LaneEdges(lanes[|lanes| - 1]) == [] then Trim(lanes[..|lanes| - 1]) else lanes
  }

  function CleanOutputs(outputs: map<string, seq<Lane>>): map<string, seq<Lane>> {
    map kind | kind in outputs && Trim(outputs[kind]) != [] :: Trim(outputs[kind])
  }

  function Clean(connections: Connections): Connections {
    map source | source in connections && CleanOutputs(connections[source]) != map[] ::
      CleanOutputs(connections[source])
  }

  function Interpret(w: Workflow, ops: seq<Operation>): Applied {
    match ApplyAll(w, ops)
    case Failed(failure) => Failed(failure)
    case Done(result) => Done(result.(connections := Clean(result.connections)))
  }

  // ---- The loops of the source ----

  method TrimLanes(lanes: seq<Lane>) returns (trimmed: seq<Lane>)
    ensures trimmed == Trim(lanes)
  {
    trimmed := lanes;
    while trimmed != [] && LaneEdges(trimmed[|trimmed| - 1]) == []
      invariant Trim(trimmed) == Trim(lanes)
      decreases |trimmed|
    {
      trimmed := trimmed[..|trimmed| - 1];
    }
  }

  /** The outputs of one source while the kinds in `todo` are still to be visited. */
  ghost function OutputsWith(outputs: map<string, seq<Lane>>, todo: set<string>): map<string, seq<Lane>> {
    map kind | kind in outputs && (kind in todo || Trim(outputs[kind]) != []) ::
      if kind in todo then outputs[kind] else Trim(outputs[kind])
  }

  lemma OutputsStep(outputs: map<string, seq<Lane>>, todo: set<string>, kind: string)
    requires kind in todo && kind in outputs
    ensures OutputsWith(outputs, todo - {kind})
         == if Trim(outputs[kind]) == [] then OutputsWith(outputs, todo) - {kind}
            else OutputsWith(outputs, todo)[kind := Trim(outputs[kind])]
  {
    hide Trim;
  }

  method DropEmptyKinds(outputs: map<string, seq<Lane>>) returns (kept: map<string, seq<Lane>>)
    ensures kept == CleanOutputs(outputs)
  {
    hide Trim;
    kept := outputs;
    var todo := outputs.Keys;
    assert kept == OutputsWith(outputs, todo);
    while todo != {}
      invariant todo <= outputs.Keys
      invariant kept == OutputsWith(outputs, todo)
      decreases |todo|
    {
      var kind :| kind in todo;
      var lanes := TrimLanes(kept[kind]);
      kept := if lanes == [] then kept - {kind} else kept[kind := lanes];
      OutputsStep(outputs, todo, kind);
      todo := todo - {kind};
    }
  }

  ghost function EntriesWith(connections: Connections, todo: set<string>): Connections {
    map source | source in connections && (source in todo || CleanOutputs(connections[source]) != map[]) ::
      if source in todo then connections[source] else CleanOutputs(connections[source])
  }

  lemma EntriesEnds(connections: Connections)
    ensures EntriesWith(connections, connections.Keys) == connections
    ensures EntriesWith(connections, {}) == Clean(connections)
  {
    hide CleanOutputs;
  }

  lemma EntriesStep(connections: Connections, todo: set<string>, source: string)
    requires source in todo && source in connections
    ensures source in EntriesWith(connections, todo) && EntriesWith(connections, todo)[source] == connections[source]
    ensures CleanOutputs(connections[source]) == map[]
        ==> EntriesWith(connections, todo - {source}) == EntriesWith(connections, todo) - {source}
    ensures CleanOutputs(connections[source]) != map[]
        ==> (EntriesWith(connections, todo - {source})
             == EntriesWith(connections, todo)[source := CleanOutputs(connections[source])])
  {
    hide CleanOutputs;
  }

  method DropEmptyEntries(connections: Connections) returns (kept: Connections)
    ensures kept == Clean(connections)
  {
    EntriesEnds(connections);
    hide CleanOutputs, EntriesWith, Clean;
    kept := connections;
    var todo := connections.Keys;
    while todo != {}
      invariant todo <= connections.Keys
      invariant kept == EntriesWith(connections, todo)
      decreases |todo|
    {
      var source :| source in todo;
      EntriesStep(connections, todo, source);
      var outputs := DropEmptyKinds(kept[source]);
      kept := if outputs == map[] then kept - {source} else kept[source := outputs];
      todo := todo - {source};
    }
  }

  method ApplyOperations(workflow: Workflow, operations: seq<Operation>) returns (applied: Applied)
    ensures applied == Interpret(workflow, operations)
  {
    var result := workflow;
    for i := 0 to |operations|
      invariant ApplyAll(workflow, operations) == ApplyAll(result, operations[i..])
    {
      assert operations[i..][1..] == operations[i + 1..];
      match ApplyOp(result, operations[i]) {
        case Failed(failure) => return Failed(failure);
        case Done(next) => result := next;
      }
    }
    var connections := DropEmptyEntries(result.connections);
    applied := Done(result.(connections := connections));
  }

  // ---- What one operation does to every lane ----

  lemma {:induction false} KeepKeep(edges: seq<Edge>, p: Edge -> bool, q: Edge -> bool, both: Edge -> bool)
    requires forall e | e in edges :: both(e) <==> p(e) && q(e)
    ensures Keep(Keep(edges, p), q) == Keep(edges, both)
  {
    if edges != [] {
      KeepKeep(edges[1..], p, q, both);
      assert edges[0] in edges;
      assert Keep(edges, p) == (if p(edges[0]) then [edges[0]] else []) + Keep(edges[1..], p);
      if p(edges[0]) { assert Keep(edges, p)[1..] == Keep(edges[1..], p); }
      else { assert Keep(edges, p) == Keep(edges[1..], p); }
    }
  }

  lemma {:induction false} KeepSame(edges: seq<Edge>, p: Edge -> bool, q: Edge -> bool)
    requires forall e | e in edges :: p(e) <==> q(e)
    ensures Keep(edges, p) == Keep(edges, q)
  {
    if edges != [] { KeepSame(edges[1..], p, q); }
  }

  lemma {:induction false} KeepAll(edges: seq<Edge>, p: Edge -> bool)
    requires forall e | e in edges :: p(e)
    ensures Keep(edges, p) == edges
  {
    if edges != [] { KeepAll(edges[1..], p); }
  }

  lemma {:induction false} KeepNone(edges: seq<Edge>, p: Edge -> bool)
    requires forall e | e in edges :: !p(e)
    ensures Keep(edges, p) == []
  {
    if edges != [] { KeepNone(edges[1..], p); }
  }

  lemma LaneOfIs(connections: Connections, key: LaneKey)
    requires NoNullLanes(connections)
    ensures LaneOf(connections, key) == Some(LaneAt(connections, key))
  {
  }

  lemma WithLaneAt(connections: Connections, key: LaneKey, edges: seq<Edge>, other: LaneKey)
    ensures LaneAt(WithLane(connections, key, edges), other)
         == if other == key then edges else LaneAt(connections, other)
  {
    var lanes := LanesOf(connections, key.source, key.kind);
    if other.source == key.source && other.kind == key.kind && other.lane != key.lane {
      if other.lane < |lanes| {
        assert Padded(lanes, key.lane)[other.lane] == lanes[other.lane];
      }
    }
  }

  lemma WithLaneKeepsLanes(connections: Connections, key: LaneKey, edges: seq<Edge>)
    requires NoNullLanes(connections)
    ensures NoNullLanes(WithLane(connections, key, edges))
  {
    var after := WithLane(connections, key, edges);
    forall s, t, lane: Lane | s in after && t in after[s] && lane in after[s][t] ensures lane.Some? {
      if s == key.source && t == key.kind {
        var padded := Padded(LanesOf(connections, s, t), key.lane);
        assert forall l | l in padded :: l.Some? || l in LanesOf(connections, s, t);
      }
    }
  }

  lemma WithoutNameAt(connections: Connections, name: string, key: LaneKey)
    ensures LaneAt(WithoutName(connections, name), key)
         == if key.source == name then [] else Keep(LaneAt(connections, key), (e: Edge) => e.node != name)
  {
  }

  lemma WithoutNameKeepsLanes(connections: Connections, name: string)
    requires NoNullLanes(connections)
    ensures NoNullLanes(WithoutName(connections, name)) && !NullLaneBeside(connections, name)
  {
    forall s, t | s in connections && t in connections[s] ensures None !in connections[s][t] {
      assert forall lane | lane in connections[s][t] :: lane.Some?;
    }
  }

  /** The final pass changes no lane. */
  lemma CleanAt(connections: Connections, key: LaneKey)
    ensures LaneAt(Clean(connections), key) == LaneAt(connections, key)
  {
    if key.source in connections && key.kind in connections[key.source] {
      assert key.source in Clean(connections) || key.kind !in CleanOutputs(connections[key.source]);
    }
  }
}
