/**
 Workflow graphs as the cutover scripts see them, and the edit operations that
 `scripts/vps_cutover_rebuild.py` emits and `scripts/vps_cutover_apply.py` interprets.

 None stands for a member that is absent; a member that is present and null is Some(JNull).
 */
module CutoverModel {
  import opened Prelude
  import opened JsonValues

  datatype Credential = Credential(id: string, name: string)

  // A dictionary with its order: build_operations emits one operation per entry.
  type Credentials = seq<(string, Credential)>

  datatype Node = Node(
    name: string,
    kind: string,
    typeVersion: Option<Json>,
    position: Option<seq<Json>>,
    parameters: map<string, Json>,
    credentials: Credentials,
    disabled: Option<Json>,
    id: Option<Json>,
    notes: Option<Json>,
    webhookId: Option<Json>,
    settings: map<string, Json>)

  datatype Edge = Edge(node: string, kind: string, index: Option<int>)

  // A lane may be null in a stored workflow.
  type Lane = Option<seq<Edge>>

  type Connections = map<string, map<string, seq<Lane>>>

  datatype Settings = Settings(common: map<string, Json>, callerIds: Option<string>, errorWorkflow: Option<string>)

  datatype Workflow = Workflow(
    nodes: seq<Node>,
    connections: Connections,
    settings: Settings,
    description: Option<string>)

  // One flattened edge: source, connection type, lane, target, target index.
  datatype FlatEdge = FlatEdge(source: string, kind: string, lane: nat, target: string, index: int)

  datatype LaneKey = LaneKey(source: string, kind: string, lane: nat)

  datatype Operation =
    | UpdateNodeParameters(nodeName: string, replace: bool, parameters: map<string, Json>)
    | SetNodeTypeVersion(nodeName: string, typeVersion: Json)
    | SetNodeCredential(nodeName: string, key: string, credential: Credential)
    | SetNodePosition(nodeName: string, position: seq<Json>)
    | SetNodeDisabled(nodeName: string, disabled: bool)
    | SetNodeSettings(nodeName: string, settings: map<string, Json>)
    | AddNode(node: Node)
    | RemoveNode(nodeName: string)
    | RemoveConnection(edge: FlatEdge)
    | AddConnection(edge: FlatEdge)
    | SetWorkflowSettings(update: Settings)
    | SetWorkflowMetadata(description: string)
    | UnknownOperation(kind: string)

  // ---- Python's readings of optional members ----

  /** dict.get: an absent member reads as null. */
  function Get(member: Option<Json>): Json {
    if member.Some? then member.value else JNull
  }

  function GetKey(members: map<string, Json>, key: string): Json {
    if key in members then members[key] else JNull
  }

  predicate Truthy(value: Json) {
    match value
    case JNull => false
    case JBool(flag) => flag
    case JNum(number) => number != 0
    case JStr(text) => text != ""
    case JArr(items) => items != []
    case JObj(fields) => fields != map[]
  }

  // ---- Nodes by name ----

  /** The first node of that name, as `_node` finds it. */
  function IndexOf(nodes: seq<Node>, name: string): (i: nat)
    ensures i <= |nodes|
    ensures i < |nodes| ==> nodes[i].name == name
    ensures forall j | 0 <= j < i :: nodes[j].name != name
  {
    if nodes == [] then 0 else if nodes[0].name == name then 0 else 1 + IndexOf(nodes[1..], name)
  }

  function Find(nodes: seq<Node>, name: string): Option<Node> {
    var i := IndexOf(nodes, name);
    if i < |nodes| then Some(nodes[i]) else None
  }

  ghost predicate UniqueNames(nodes: seq<Node>) {
    forall i, j | 0 <= i < j < |nodes| :: nodes[i].name != nodes[j].name
  }

  /** With unique names, finding a name is finding the one node that bears it. */
  lemma FindIsThe(nodes: seq<Node>, i: nat)
    requires UniqueNames(nodes) && i < |nodes|
    ensures Find(nodes, nodes[i].name) == Some(nodes[i])
  {
  }

  lemma FindsSome(nodes: seq<Node>, name: string)
    ensures Find(nodes, name).Some? <==> exists i :: 0 <= i < |nodes| && nodes[i].name == name
    ensures Find(nodes, name).Some? ==> Find(nodes, name).value in nodes && Find(nodes, name).value.name == name
  {
  }

  // ---- Credentials as an ordered dictionary ----

  function Lookup(credentials: Credentials, key: string): Option<Credential> {
    if credentials == [] then None
    else if credentials[0].0 == key then Some(credentials[0].1)
    else Lookup(credentials[1..], key)
  }

  /** Assignment to a key: in place when present, at the end when not. */
  function Put(credentials: Credentials, key: string, credential: Credential): Credentials {
    if credentials == [] then [(key, credential)]
    else if credentials[0].0 == key then [(key, credential)] + credentials[1..]
    else [credentials[0]] + Put(credentials[1..], key, credential)
  }

  function PutAll(credentials: Credentials, updates: Credentials): Credentials
    decreases |updates|
  {
    if updates == [] then credentials
    else PutAll(Put(credentials, updates[0].0, updates[0].1), updates[1..])
  }

  lemma {:induction false} LookupPut(credentials: Credentials, key: string, credential: Credential, other: string)
    ensures Lookup(Put(credentials, key, credential), other)
         == if other == key then Some(credential) else Lookup(credentials, other)
  {
    if credentials != [] && credentials[0].0 != key {
      assert Put(credentials, key, credential)[1..] == Put(credentials[1..], key, credential);
      LookupPut(credentials[1..], key, credential, other);
    }
  }

  ghost predicate UniqueKeys(credentials: Credentials) {
    forall i, j | 0 <= i < j < |credentials| :: credentials[i].0 != credentials[j].0
  }

  lemma {:induction false} LookupPutAll(credentials: Credentials, updates: Credentials, key: string)
    requires UniqueKeys(updates)
    ensures Lookup(PutAll(credentials, updates), key)
         == if Lookup(updates, key).Some? then Lookup(updates, key) else Lookup(credentials, key)
    decreases |updates|
  {
    if updates != [] {
      LookupPut(credentials, updates[0].0, updates[0].1, key);
      LookupPutAll(Put(credentials, updates[0].0, updates[0].1), updates[1..], key);
      LookupIsLocal(updates[1..], updates[0].0);
    }
  }

  lemma LookupIsLocal(credentials: Credentials, key: string)
    ensures Lookup(credentials, key).Some? ==> (key, Lookup(credentials, key).value) in credentials
  {
  }

  /** Putting what is already there changes nothing. */
  lemma {:induction false} PutSame(credentials: Credentials, key: string, credential: Credential)
    requires Lookup(credentials, key) == Some(credential)
    ensures Put(credentials, key, credential) == credentials
  {
    if credentials[0].0 != key { PutSame(credentials[1..], key, credential); }
  }

  lemma {:induction false} PutAllSame(credentials: Credentials, updates: Credentials)
    requires forall k :: Lookup(updates, k).Some? ==> Lookup(credentials, k) == Lookup(updates, k)
    requires UniqueKeys(updates)
    ensures PutAll(credentials, updates) == credentials
    decreases |updates|
  {
    if updates != [] {
      assert Lookup(updates, updates[0].0) == Some(updates[0].1);
      PutSame(credentials, updates[0].0, updates[0].1);
      forall k | Lookup(updates[1..], k).Some? ensures Lookup(credentials, k) == Lookup(updates[1..], k) {
        LookupIsLocal(updates[1..], k);
        assert k != updates[0].0;
        assert Lookup(updates, k) == Lookup(updates[1..], k);
      }
      PutAllSame(credentials, updates[1..]);
    }
  }

  // ---- Lanes ----

  function LaneEdges(lane: Lane): seq<Edge> {
    if lane.Some? then lane.value else []
  }

  /** The edges of one lane; a missing or null lane has none. */
  function LaneAt(connections: Connections, key: LaneKey): seq<Edge> {
    if key.source in connections && key.kind in connections[key.source]
       && key.lane < |connections[key.source][key.kind]|
    then LaneEdges(connections[key.source][key.kind][key.lane])
    else []
  }

  ghost predicate NoNullLanes(connections: Connections) {
    forall s, t, lane | s in connections && t in connections[s] && lane in connections[s][t] :: lane.Some?
  }

  /** edge.get("index", 0) */
  function IndexOrZero(edge: Edge): int {
    if edge.index.Some? then edge.index.value else 0
  }

  function Flatten(key: LaneKey, edges: seq<Edge>): seq<FlatEdge> {
    if edges == [] then []
    else [FlatEdge(key.source, key.kind, key.lane, edges[0].node, IndexOrZero(edges[0]))] + Flatten(key, edges[1..])
  }

  function KeyOf(edge: FlatEdge): LaneKey {
    LaneKey(edge.source, edge.kind, edge.lane)
  }

  /** The edges of a flat list that belong to one lane, in order. */
  function Project(edges: seq<FlatEdge>, key: LaneKey): (lane: seq<FlatEdge>)
    ensures forall e :: e in lane <==> e in edges && KeyOf(e) == key
  {
    if edges == [] then []
    else (if KeyOf(edges[0]) == key then [edges[0]] else []) + Project(edges[1..], key)
  }

  lemma {:induction false} ProjectConcat(a: seq<FlatEdge>, b: seq<FlatEdge>, key: LaneKey)
    ensures Project(a + b, key) == Project(a, key) + Project(b, key)
  {
    if a == [] {
      assert a + b == b;
    } else {
      assert (a + b)[1..] == a[1..] + b;
      ProjectConcat(a[1..], b, key);
    }
  }

  lemma {:induction false} ProjectFlatten(at: LaneKey, edges: seq<Edge>, key: LaneKey)
    ensures Project(Flatten(at, edges), key) == if at == key then Flatten(at, edges) else []
  {
    if edges != [] { ProjectFlatten(at, edges[1..], key); }
  }

  /** A flat list holds exactly the edges of a graph, each lane's in its order. */
  ghost predicate ListsEdges(edges: seq<FlatEdge>, connections: Connections) {
    forall key :: Project(edges, key) == Flatten(key, LaneAt(connections, key))
  }
}
