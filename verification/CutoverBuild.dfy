/**
 The compiler of `scripts/vps_cutover_rebuild.py`: two workflow graphs and the cutover
 maps become the list of operations that rebuilds one from the other.
 */
module CutoverBuild {
  import opened Prelude
  import opened JsonValues
  import opened Strings
  import opened CutoverModel

  const CODE_TYPE := "n8n-nodes-base.code"

  const NODE_SETTING_KEYS: seq<string> := [
    "alwaysOutputData", "executeOnce", "retryOnFail", "maxTries", "waitBetweenTries", "onError"]

  const WORKFLOW_SETTING_KEYS: seq<string> := [
    "executionOrder", "saveDataSuccessExecution", "saveDataErrorExecution", "saveManualExecutions",
    "saveExecutionProgress", "executionTimeout", "timezone", "callerPolicy"]

  const DESCRIPTION_LIMIT := 255

  datatype CredentialTarget = CredentialTarget(id: string, name: Option<string>)

  // Pairs keep the order of the dictionary they come from: replacement goes through them in turn.
  type Pairs = seq<(string, string)>

  datatype Maps = Maps(
    hostFrom: string,
    hostTo: string,
    workflowIds: Pairs,
    dataTables: Pairs,
    credentials: map<string, CredentialTarget>,
    errorWorkflows: map<string, string>)

  type Overlay = map<string, string>

  function PairGet(pairs: Pairs, key: string): Option<string> {
    if pairs == [] then None else if pairs[0].0 == key then Some(pairs[0].1) else PairGet(pairs[1..], key)
  }

  // ---- Strings ----

  function Interleave(text: string, insert: string): string {
    if text == "" then insert else insert + [text[0]] + Interleave(text[1..], insert)
  }

  /** str.replace: left to right, without overlap; an empty pattern matches between all characters. */
  function Replace(text: string, from: string, to: string): string {
    if from == "" then Interleave(text, to)
    else if text == "" then ""
    else if StartsWith(text, from) then to + Replace(text[|from|..], from, to)
    else [text[0]] + Replace(text[1..], from, to)
  }

  function ReplacePairs(text: string, pairs: Pairs): string
    decreases |pairs|
  {
    if pairs == [] then text else ReplacePairs(Replace(text, pairs[0].0, pairs[0].1), pairs[1..])
  }

  function RewriteText(text: string, maps: Maps): string {
    ReplacePairs(ReplacePairs(Replace(text, maps.hostFrom, maps.hostTo), maps.workflowIds), maps.dataTables)
  }

  function RewriteStrings(value: Json, maps: Maps): Json
    decreases value
  {
    match value
    case JStr(text) => JStr(RewriteText(text, maps))
    case JArr(items) => JArr(seq(|items|, i requires 0 <= i < |items| => RewriteStrings(items[i], maps)))
    case JObj(fields) => JObj(map key | key in fields :: RewriteStrings(fields[key], maps))
    case _ => value
  }

  function OverlayKey(name: string): string {
    Snake(name)
  }

  function JoinCommas(parts: seq<string>): string {
    if parts == [] then "" else if |parts| == 1 then parts[0] else parts[0] + "," + JoinCommas(parts[1..])
  }

  // ---- Nodes ----

  function MapCredential(reference: Credential, maps: Maps): Option<Credential> {
    if reference.id in maps.credentials then
      var target := maps.credentials[reference.id];
      Some(Credential(target.id, if target.name.Some? then target.name.value else reference.name))
    else None
  }

  /** A credential without a twin is left off. */
  function MapCredentials(credentials: Credentials, maps: Maps): Credentials {
    if credentials == [] then []
    else
      var mapped := MapCredential(credentials[0].1, maps);
      (if mapped.Some? then [(credentials[0].0, mapped.value)] else []) + MapCredentials(credentials[1..], maps)
  }

  predicate TakesOverlay(node: Node, overlay: Overlay) {
    node.kind == CODE_TYPE && OverlayKey(node.name) in overlay
  }

  function RewrittenParameters(node: Node, maps: Maps): map<string, Json> {
    map key | key in node.parameters :: RewriteStrings(node.parameters[key], maps)
  }

  function WantedParameters(node: Node, maps: Maps, overlay: Overlay): map<string, Json> {
    if TakesOverlay(node, overlay)
    then RewrittenParameters(node, maps)["jsCode" := JStr(overlay[OverlayKey(node.name)])]
    else RewrittenParameters(node, maps)
  }

  /** overlay.pop: the file serves the first Code node with its key. */
  function RestOfOverlay(node: Node, overlay: Overlay): Overlay {
    if TakesOverlay(node, overlay) then overlay - {OverlayKey(node.name)} else overlay
  }

  function Restrict(members: map<string, Json>, keys: seq<string>): map<string, Json> {
    map key | key in members && key in keys :: members[key]
  }

  function PositionOf(node: Node): seq<Json> {
    if node.position.Some? then node.position.value else [JNum(0), JNum(0)]
  }

  function Truth(member: Option<Json>): bool {
    Truthy(Get(member))
  }

  function IfTruthy(member: Option<Json>): Option<Json> {
    if Truth(member) then member else None
  }

  function FreshNode(node: Node, parameters: map<string, Json>, credentials: Credentials): Node {
    Node(
      node.name,
      node.kind,
      if node.typeVersion.Some? then node.typeVersion else Some(JNum(1)),
      Some(PositionOf(node)),
      parameters,
      credentials,
      if Truth(node.disabled) then Some(JBool(true)) else None,
      IfTruthy(node.id),
      IfTruthy(node.notes),
      None,
      map[])
  }

  function CredentialOps(name: string, credentials: Credentials): seq<Operation> {
    if credentials == [] then []
    else [SetNodeCredential(name, credentials[0].0, credentials[0].1)] + CredentialOps(name, credentials[1..])
  }

  /** The operations that bring an existing node of the same type into line. */
  function UpdateOps(node: Node, existing: Node, parameters: map<string, Json>, credentials: Credentials)
    : seq<Operation>
  {
    [UpdateNodeParameters(node.name, true, parameters)]
    + (if Get(existing.typeVersion) != Get(node.typeVersion)
       then [SetNodeTypeVersion(node.name, Get(node.typeVersion))] else [])
    + CredentialOps(node.name, credentials)
    + [SetNodePosition(node.name, PositionOf(node))]
    + (if Truth(existing.disabled) != Truth(node.disabled)
       then [SetNodeDisabled(node.name, Truth(node.disabled))] else [])
  }

  function SettingsOps(node: Node): seq<Operation> {
    var settings := Restrict(node.settings, NODE_SETTING_KEYS);
    if settings == map[] then [] else [SetNodeSettings(node.name, settings)]
  }

  predicate InPlace(node: Node, existing: Option<Node>) {
    existing.Some? && existing.value.kind == node.kind
  }

  function NodeChunk(node: Node, existing: Option<Node>, parameters: map<string, Json>, credentials: Credentials)
    : seq<Operation>
  {
    (if InPlace(node, existing) then UpdateOps(node, existing.value, parameters, credentials)
     else (if existing.Some? then [RemoveNode(node.name)] else [])
          + [AddNode(FreshNode(node, parameters, credentials))])
    + SettingsOps(node)
  }

  /** {node["name"]: node for node in nodes}: the last of several namesakes wins. */
  function ByName(nodes: seq<Node>): map<string, Node> {
    if nodes == [] then map[] else ByName(nodes[..|nodes| - 1])[nodes[|nodes| - 1].name := nodes[|nodes| - 1]]
  }

  function NodeAt(nodes: map<string, Node>, name: string): Option<Node> {
    if name in nodes then Some(nodes[name]) else None
  }

  function NodeOps(source: seq<Node>, target: map<string, Node>, maps: Maps, overlay: Overlay): seq<Operation>
    decreases |source|
  {
    if source == [] then []
    else
      var node := source[0];
      NodeChunk(node, NodeAt(target, node.name), WantedParameters(node, maps, overlay),
                MapCredentials(node.credentials, maps))
      + NodeOps(source[1..], target, maps, RestOfOverlay(node, overlay))
  }

  /** The overlay files that no Code node has asked for: report["overlay_unmatched_files"]. */
  function OverlayLeft(source: seq<Node>, overlay: Overlay): Overlay
    decreases |source|
  {
    if source == [] then overlay else OverlayLeft(source[1..], RestOfOverlay(source[0], overlay))
  }

  function NamesOf(nodes: seq<Node>): set<string> {
    set n | n in nodes :: n.name
  }

  /** One removal for every name not seen in the source, in order of first appearance. */
  function ExtraOps(nodes: seq<Node>, seen: set<string>): seq<Operation>
    decreases |nodes|
  {
    if nodes == [] then []
    else if nodes[0].name in seen then ExtraOps(nodes[1..], seen)
    else [RemoveNode(nodes[0].name)] + ExtraOps(nodes[1..], seen + {nodes[0].name})
  }

  // ---- Connections, settings, description ----

  function Removals(edges: seq<FlatEdge>): seq<Operation> {
    seq(|edges|, i requires 0 <= i < |edges| => RemoveConnection(edges[i]))
  }

  function Additions(edges: seq<FlatEdge>): seq<Operation> {
    seq(|edges|, i requires 0 <= i < |edges| => AddConnection(edges[i]))
  }

  function MapCallers(parts: seq<string>, maps: Maps): seq<string> {
    if parts == [] then []
    else
      var caller := Strip(parts[0], Blank);
      var twin := PairGet(maps.workflowIds, caller);
      (if caller == "" then [] else [if twin.Some? then twin.value else caller]) + MapCallers(parts[1..], maps)
  }

  function NonEmpty(text: Option<string>): bool {
    text.Some? && text.value != ""
  }

  /** `a or b` over two look-ups: the first that is neither absent nor empty. */
  function ErrorTarget(id: string, maps: Maps): Option<string> {
    if id in maps.errorWorkflows && maps.errorWorkflows[id] != "" then Some(maps.errorWorkflows[id])
    else if NonEmpty(PairGet(maps.workflowIds, id)) then PairGet(maps.workflowIds, id)
    else None
  }

  function SettingsUpdate(settings: Settings, maps: Maps): Settings {
    Settings(
      Restrict(settings.common, WORKFLOW_SETTING_KEYS),
      if settings.callerIds.Some?
      then Some(JoinCommas(MapCallers(Split(settings.callerIds.value, ','), maps))) else None,
      if NonEmpty(settings.errorWorkflow) then ErrorTarget(settings.errorWorkflow.value, maps) else None)
  }

  const NO_SETTINGS := Settings(map[], None, None)

  function WorkflowOps(source: Workflow, maps: Maps): seq<Operation> {
    var update := SettingsUpdate(source.settings, maps);
    (if update == NO_SETTINGS then [] else [SetWorkflowSettings(update)])
    + (if NonEmpty(source.description)
       then [SetWorkflowMetadata(
               if |source.description.value| > DESCRIPTION_LIMIT then source.description.value[..DESCRIPTION_LIMIT]
               else source.description.value)]
       else [])
  }

  function NodePart(source: Workflow, target: Workflow, maps: Maps, overlay: Overlay): seq<Operation> {
    NodeOps(source.nodes, ByName(target.nodes), maps, overlay) + ExtraOps(target.nodes, NamesOf(source.nodes))
  }

  function ConnectionPart(source: Workflow, maps: Maps, sourceEdges: seq<FlatEdge>, targetEdges: seq<FlatEdge>)
    : seq<Operation>
  {
    Removals(targetEdges) + Additions(sourceEdges) + WorkflowOps(source, maps)
  }

  /**
   The compiled list, for some order of the connection dictionaries: their order is the
   only freedom the compiler has, and every theorem holds for all of them.
   */
  ghost predicate Compiled(ops: seq<Operation>, source: Workflow, target: Workflow, maps: Maps, overlay: Overlay) {
    exists sourceEdges, targetEdges
      | ListsEdges(sourceEdges, source.connections) && ListsEdges(targetEdges, target.connections) ::
      ops == NodePart(source, target, maps, overlay) + ConnectionPart(source, maps, sourceEdges, targetEdges)
  }

  // ---- The loops of the source ----

  method LaneList(key: LaneKey, lane: Lane) returns (edges: seq<FlatEdge>)
    ensures edges == Flatten(key, LaneEdges(lane))
  {
    edges := [];
    var list := LaneEdges(lane);
    for i := 0 to |list|
      invariant edges + Flatten(key, list[i..]) == Flatten(key, list)
    {
      assert list[i..][1..] == list[i + 1..];
      edges := edges + [FlatEdge(key.source, key.kind, key.lane, list[i].node, IndexOrZero(list[i]))];
    }
  }

  // What a partly built list holds of one lane.

  ghost function LaneOfKind(source: string, kind: string, lanes: seq<Lane>, key: LaneKey): seq<FlatEdge> {
    if key.source == source && key.kind == kind && key.lane < |lanes|
    then Flatten(key, LaneEdges(lanes[key.lane])) else []
  }

  ghost function LaneOfSource(source: string, outputs: map<string, seq<Lane>>, todo: set<string>, key: LaneKey)
    : seq<FlatEdge>
  {
    if key.kind in outputs && key.kind !in todo then LaneOfKind(source, key.kind, outputs[key.kind], key) else []
  }

  ghost function LaneOfGraph(connections: Connections, todo: set<string>, key: LaneKey): seq<FlatEdge> {
    if key.source in connections && key.source !in todo
    then LaneOfSource(key.source, connections[key.source], {}, key) else []
  }

  lemma ProjectAppend(edges: seq<FlatEdge>, more: seq<FlatEdge>)
    ensures forall key :: Project(edges + more, key) == Project(edges, key) + Project(more, key)
  {
    forall key { ProjectConcat(edges, more, key); }
  }

  method KindList(source: string, kind: string, lanes: seq<Lane>) returns (edges: seq<FlatEdge>)
    ensures forall key :: Project(edges, key) == LaneOfKind(source, kind, lanes, key)
  {
    edges := [];
    for i := 0 to |lanes|
      invariant forall key :: Project(edges, key) == LaneOfKind(source, kind, lanes[..i], key)
    {
      var more := LaneList(LaneKey(source, kind, i), lanes[i]);
      ProjectAppend(edges, more);
      forall key ensures Project(more, key) == if key == LaneKey(source, kind, i) then more else [] {
        ProjectFlatten(LaneKey(source, kind, i), LaneEdges(lanes[i]), key);
      }
      edges := edges + more;
    }
    assert lanes[..|lanes|] == lanes;
  }

  ghost predicate ListsSource(edges: seq<FlatEdge>, source: string, outputs: map<string, seq<Lane>>, todo: set<string>) {
    forall key :: Project(edges, key) == LaneOfSource(source, outputs, todo, key)
  }

  lemma SourceStep(edges: seq<FlatEdge>, more: seq<FlatEdge>, source: string, outputs: map<string, seq<Lane>>,
                   todo: set<string>, kind: string)
    requires ListsSource(edges, source, outputs, todo) && kind in todo && kind in outputs
    requires forall key :: Project(more, key) == LaneOfKind(source, kind, outputs[kind], key)
    ensures ListsSource(edges + more, source, outputs, todo - {kind})
  {
    ProjectAppend(edges, more);
    hide Project, Flatten;
  }

  method SourceList(source: string, outputs: map<string, seq<Lane>>) returns (edges: seq<FlatEdge>)
    ensures forall key :: Project(edges, key) == LaneOfSource(source, outputs, {}, key)
  {
    edges := [];
    var todo := outputs.Keys;
    assert ListsSource(edges, source, outputs, todo);
    while todo != {}
      invariant todo <= outputs.Keys
      invariant ListsSource(edges, source, outputs, todo)
      decreases |todo|
    {
      var kind :| kind in todo;
      var more := KindList(source, kind, outputs[kind]);
      SourceStep(edges, more, source, outputs, todo, kind);
      edges, todo := edges + more, todo - {kind};
    }
  }

  ghost predicate ListsGraph(edges: seq<FlatEdge>, connections: Connections, todo: set<string>) {
    forall key :: Project(edges, key) == LaneOfGraph(connections, todo, key)
  }

  lemma GraphStep(edges: seq<FlatEdge>, more: seq<FlatEdge>, connections: Connections, todo: set<string>, source: string)
    requires ListsGraph(edges, connections, todo) && source in todo && source in connections
    requires forall key :: Project(more, key) == LaneOfSource(source, connections[source], {}, key)
    ensures ListsGraph(edges + more, connections, todo - {source})
  {
    ProjectAppend(edges, more);
    hide Project, Flatten;
  }

  lemma GraphDone(edges: seq<FlatEdge>, connections: Connections)
    requires ListsGraph(edges, connections, {})
    ensures ListsEdges(edges, connections)
  {
    hide Project;
  }

  method ConnectionEdges(connections: Connections) returns (edges: seq<FlatEdge>)
    ensures ListsEdges(edges, connections)
  {
    edges := [];
    var todo := connections.Keys;
    assert ListsGraph(edges, connections, todo);
    while todo != {}
      invariant todo <= connections.Keys
      invariant ListsGraph(edges, connections, todo)
      decreases |todo|
    {
      var source :| source in todo;
      var more := SourceList(source, connections[source]);
      GraphStep(edges, more, connections, todo, source);
      edges, todo := edges + more, todo - {source};
    }
    GraphDone(edges, connections);
  }

  method MapNodeCredentials(credentials: Credentials, maps: Maps) returns (mapped: Credentials)
    ensures mapped == MapCredentials(credentials, maps)
  {
    mapped := [];
    for i := 0 to |credentials|
      invariant mapped + MapCredentials(credentials[i..], maps) == MapCredentials(credentials, maps)
    {
      assert credentials[i..][1..] == credentials[i + 1..];
      var twin := MapCredential(credentials[i].1, maps);
      if twin.Some? {
        mapped := mapped + [(credentials[i].0, twin.value)];
      }
    }
  }

  method SourceNodeOps(source: seq<Node>, byName: map<string, Node>, maps: Maps, overlay: Overlay)
    returns (ops: seq<Operation>, seen: set<string>, unused: Overlay)
    ensures ops == NodeOps(source, byName, maps, overlay)
    ensures seen == NamesOf(source)
    ensures unused == OverlayLeft(source, overlay)
  {
    hide NodeChunk, WantedParameters, RestOfOverlay, MapCredentials;
    ops, seen, unused := [], {}, overlay;
    for i := 0 to |source|
      invariant seen == NamesOf(source[..i])
      invariant ops + NodeOps(source[i..], byName, maps, unused) == NodeOps(source, byName, maps, overlay)
      invariant OverlayLeft(source[i..], unused) == OverlayLeft(source, overlay)
    {
      var node := source[i];
      assert source[i..][1..] == source[i + 1..] && source[..i + 1] == source[..i] + [node];
      seen := seen + {node.name};
      var parameters := WantedParameters(node, maps, unused);
      unused := RestOfOverlay(node, unused);
      var credentials := MapNodeCredentials(node.credentials, maps);
      ops := ops + NodeChunk(node, NodeAt(byName, node.name), parameters, credentials);
    }
    assert source[..|source|] == source;
  }

  method ExtraNodeOps(target: seq<Node>, names: set<string>) returns (ops: seq<Operation>)
    ensures ops == ExtraOps(target, names)
  {
    ops := [];
    var seen := names;
    for i := 0 to |target|
      invariant ops + ExtraOps(target[i..], seen) == ExtraOps(target, names)
    {
      assert target[i..][1..] == target[i + 1..];
      if target[i].name !in seen {
        ops := ops + [RemoveNode(target[i].name)];
        seen := seen + {target[i].name};
      }
    }
  }

  method BuildOperations(source: Workflow, target: Workflow, maps: Maps, overlay: Overlay)
    returns (ops: seq<Operation>, unmatched: Overlay)
    ensures Compiled(ops, source, target, maps, overlay)
    ensures unmatched == OverlayLeft(source.nodes, overlay)
  {
    var targetEdges := ConnectionEdges(target.connections);
    var connectionOps := [];
    for i := 0 to |targetEdges|
      invariant connectionOps == Removals(targetEdges[..i])
    {
      connectionOps := connectionOps + [RemoveConnection(targetEdges[i])];
    }
    assert targetEdges[..|targetEdges|] == targetEdges;
    var nodeOps, seen, unused := SourceNodeOps(source.nodes, ByName(target.nodes), maps, overlay);
    var extras := ExtraNodeOps(target.nodes, seen);
    nodeOps := nodeOps + extras;
    var sourceEdges := ConnectionEdges(source.connections);
    for i := 0 to |sourceEdges|
      invariant connectionOps == Removals(targetEdges) + Additions(sourceEdges[..i])
    {
      connectionOps := connectionOps + [AddConnection(sourceEdges[i])];
    }
    assert sourceEdges[..|sourceEdges|] == sourceEdges;
    connectionOps := connectionOps + WorkflowOps(source, maps);
    ops, unmatched := nodeOps + connectionOps, unused;
    assert nodeOps == NodePart(source, target, maps, overlay);
    assert connectionOps == ConnectionPart(source, maps, sourceEdges, targetEdges);
  }
}
