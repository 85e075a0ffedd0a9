/** When a compiled run stops at a null lane, by the nodes and lanes of the two graphs alone. */
module CutoverStops {
  import opened Prelude
  import opened JsonValues
  import opened CutoverModel
  import opened CutoverApply
  import opened CutoverBuild
  import opened CutoverPhases
  import opened CutoverNulls
  import opened CutoverResult

  /** The target has a node of that name, but of another type. */
  ghost predicate Retyped(node: Node, target: seq<Node>) {
    exists t | t in target :: t.name == node.name && t.kind != node.kind
  }

  ghost predicate Extra(node: Node, source: seq<Node>) {
    forall s | s in source :: s.name != node.name
  }

  /** The first node the compiled list removes: a retyped one of the source's, else one that the source has not. */
  ghost predicate RemovedFirst(source: seq<Node>, target: seq<Node>, name: string) {
    || (exists i | 0 <= i < |source| ::
          source[i].name == name && Retyped(source[i], target) && forall j | 0 <= j < i :: !Retyped(source[j], target))
    || ((forall s | s in source :: !Retyped(s, target))
        && exists i | 0 <= i < |target| ::
             target[i].name == name && Extra(target[i], source) && forall j | 0 <= j < i :: !Extra(target[j], source))
  }

  ghost predicate NullLane(connections: Connections, source: string, kind: string, lane: nat) {
    && source in connections && kind in connections[source] && lane < |connections[source][kind]|
    && connections[source][kind][lane] == None
  }

  ghost predicate HasEdges(connections: Connections, source: string, kind: string, lane: nat) {
    && source in connections && kind in connections[source] && lane < |connections[source][kind]|
    && connections[source][kind][lane].Some? && connections[source][kind][lane].value != []
  }

  lemma {:induction false} FirstOfTwo(a: seq<Operation>, b: seq<Operation>)
    ensures FirstRemoved(a + b) == if FirstRemoved(a).Some? then FirstRemoved(a) else FirstRemoved(b)
    decreases |a|
  {
    if a == [] {
      assert a + b == b;
    } else {
      assert (a + b)[1..] == a[1..] + b;
      FirstOfTwo(a[1..], b);
    }
  }

  lemma {:induction false} NoneOf(ops: seq<Operation>)
    requires forall op | op in ops :: !op.RemoveNode?
    ensures FirstRemoved(ops) == None
    decreases |ops|
  {
    if ops != [] {
      assert ops[0] in ops;
      NoneOf(ops[1..]);
    }
  }

  lemma {:induction false} CredentialsRemoveNone(name: string, credentials: Credentials)
    ensures forall op | op in CredentialOps(name, credentials) :: !op.RemoveNode?
    decreases |credentials|
  {
    if credentials != [] { CredentialsRemoveNone(name, credentials[1..]); }
  }

  lemma ChunkRemoves(node: Node, existing: Option<Node>, parameters: map<string, Json>, credentials: Credentials)
    ensures FirstRemoved(NodeChunk(node, existing, parameters, credentials))
         == if existing.Some? && existing.value.kind != node.kind then Some(node.name) else None
  {
    CredentialsRemoveNone(node.name, credentials);
    hide PositionOf, Get, Truth, FreshNode, NODE_SETTING_KEYS, Restrict;
    NoneOf(SettingsOps(node));
    if existing.Some? { NoneOf(UpdateOps(node, existing.value, parameters, credentials)); }
    var added := [AddNode(FreshNode(node, parameters, credentials))];
    NoneOf(added);
    FirstOfTwo([RemoveNode(node.name)], added);
    FirstOfTwo([], added);
    FirstOfTwo(if InPlace(node, existing) then UpdateOps(node, existing.value, parameters, credentials)
               else (if existing.Some? then [RemoveNode(node.name)] else []) + added,
               SettingsOps(node));
  }

  lemma RetypedIs(node: Node, target: seq<Node>)
    requires UniqueNames(target)
    ensures var existing := NodeAt(ByName(target), node.name);
            Retyped(node, target) <==> existing.Some? && existing.value.kind != node.kind
  {
    ByNameIsFind(target);
    FindsSome(target, node.name);
    if t :| t in target && t.name == node.name && t.kind != node.kind {
      var i :| 0 <= i < |target| && target[i] == t;
      FindIsThe(target, i);
    }
    hide ByName, Find;
  }

  lemma {:induction false} NodeOpsRemove(source: seq<Node>, target: seq<Node>, maps: Maps, overlay: Overlay)
    requires UniqueNames(target)
    ensures var first := FirstRemoved(NodeOps(source, ByName(target), maps, overlay));
      if first.None? then forall s | s in source :: !Retyped(s, target)
      else exists i | 0 <= i < |source| ::
             source[i].name == first.value && Retyped(source[i], target) && forall j | 0 <= j < i :: !Retyped(source[j], target)
    decreases |source|
  {
    hide Retyped, ByName, NodeAt, NodeChunk, RestOfOverlay, WantedParameters, MapCredentials, FirstRemoved;
    if source == [] {
      NoneOf([]);
      return;
    }
    var node, rest := source[0], NodeOps(source[1..], ByName(target), maps, RestOfOverlay(source[0], overlay));
    var existing := NodeAt(ByName(target), node.name);
    ChunkRemoves(node, existing, WantedParameters(node, maps, overlay), MapCredentials(node.credentials, maps));
    FirstOfTwo(NodeChunk(node, existing, WantedParameters(node, maps, overlay), MapCredentials(node.credentials, maps)), rest);
    RetypedIs(node, target);
    NodeOpsRemove(source[1..], target, maps, RestOfOverlay(node, overlay));
    var later := FirstRemoved(rest);
    if !Retyped(node, target) && later.Some? {
      var i :| 0 <= i < |source| - 1 && source[1..][i].name == later.value && Retyped(source[1..][i], target)
               && forall j | 0 <= j < i :: !Retyped(source[1..][j], target);
      assert source[i + 1] == source[1..][i];
      assert forall j | 0 < j < i + 1 :: source[j] == source[1..][j - 1];
    }
  }

  lemma {:induction false} ExtraOpsRemove(nodes: seq<Node>, seen: set<string>)
    ensures var first := FirstRemoved(ExtraOps(nodes, seen));
      if first.None? then forall t | t in nodes :: t.name in seen
      else exists i | 0 <= i < |nodes| ::
             nodes[i].name == first.value && nodes[i].name !in seen && forall j | 0 <= j < i :: nodes[j].name in seen
    decreases |nodes|
  {
    if nodes != [] {
      if nodes[0].name in seen {
        ExtraOpsRemove(nodes[1..], seen);
        var first := FirstRemoved(ExtraOps(nodes[1..], seen));
        if first.Some? {
          var i :| 0 <= i < |nodes| - 1 && nodes[1..][i].name == first.value && nodes[1..][i].name !in seen
                   && forall j | 0 <= j < i :: nodes[1..][j].name in seen;
          assert forall j | 0 < j < i + 1 :: nodes[j] == nodes[1..][j - 1];
          assert nodes[i + 1].name !in seen;
        }
      } else {
        FirstOfTwo([RemoveNode(nodes[0].name)], ExtraOps(nodes[1..], seen + {nodes[0].name}));
      }
    }
  }

  /** The first removed node, and that there is none. */
  lemma FirstRemovedIs(source: Workflow, target: Workflow, maps: Maps, overlay: Overlay)
    requires UniqueNames(target.nodes)
    ensures match FirstRemoved(NodePart(source, target, maps, overlay))
      case Some(name) => RemovedFirst(source.nodes, target.nodes, name)
      case None => (forall s | s in source.nodes :: !Retyped(s, target.nodes))
                   && forall t | t in target.nodes :: !Extra(t, source.nodes)
  {
    hide FirstRemoved, NodeOps, ExtraOps, Retyped, NamesOf, Extra, ByName, UniqueNames;
    NodeOpsRemove(source.nodes, target.nodes, maps, overlay);
    ExtraOpsRemove(target.nodes, NamesOf(source.nodes));
    FirstOfTwo(NodeOps(source.nodes, ByName(target.nodes), maps, overlay), ExtraOps(target.nodes, NamesOf(source.nodes)));
    forall t: Node ensures t.name in NamesOf(source.nodes) <==> !Extra(t, source.nodes) { ExtraIs(t, source.nodes); }
  }

  lemma ExtraIs(t: Node, source: seq<Node>)
    ensures t.name in NamesOf(source) <==> !Extra(t, source)
  {
  }

  /**
   A compiled run stops if and only if a node is removed, and before the first removal a lane of some
   other source is null, or no node is removed and a lane that is null in the target has edges in the source.
   */
  lemma NullStopsMeans(source: Workflow, target: Workflow, maps: Maps, overlay: Overlay)
    requires UniqueNames(source.nodes) && UniqueNames(target.nodes)
    ensures NullStops(source, target, maps, overlay) <==>
      || (exists name, s, k, l ::
            RemovedFirst(source.nodes, target.nodes, name) && s != name && NullLane(target.connections, s, k, l))
      || ((forall s | s in source.nodes :: !Retyped(s, target.nodes))
          && (forall t | t in target.nodes :: !Extra(t, source.nodes))
          && exists s, k, l :: NullLane(target.connections, s, k, l) && HasEdges(source.connections, s, k, l))
  {
    FirstRemovedIs(source, target, maps, overlay);
    match FirstRemoved(NodePart(source, target, maps, overlay))
    case Some(name) =>
      BesideIsNull(target.connections, name);
      forall other | RemovedFirst(source.nodes, target.nodes, other) ensures other == name {
        OneIsFirst(source.nodes, target.nodes, name, other);
      }
      SomethingGoes(source.nodes, target.nodes, name);
      hide NullLaneBeside, RemovedFirst, NodePart, FirstRemoved, NullLane, Retyped, Extra;
    case None =>
      NullForAnEdgeIs(source.connections, target.connections);
      NothingGoes(source.nodes, target.nodes);
      hide NullForAnEdge, RemovedFirst, NodePart, FirstRemoved, NullLane, Retyped, Extra, HasEdges;
  }

  lemma OneIsFirst(source: seq<Node>, target: seq<Node>, a: string, b: string)
    requires RemovedFirst(source, target, a) && RemovedFirst(source, target, b)
    ensures a == b
  {
    hide Retyped, Extra;
  }

  lemma SomethingGoes(source: seq<Node>, target: seq<Node>, name: string)
    requires RemovedFirst(source, target, name)
    ensures !((forall s | s in source :: !Retyped(s, target)) && forall t | t in target :: !Extra(t, source))
  {
    hide Retyped, Extra;
  }

  lemma NothingGoes(source: seq<Node>, target: seq<Node>)
    requires (forall s | s in source :: !Retyped(s, target)) && forall t | t in target :: !Extra(t, source)
    ensures forall name :: !RemovedFirst(source, target, name)
  {
    hide Retyped, Extra;
  }

  lemma BesideIsNull(connections: Connections, name: string)
    ensures NullLaneBeside(connections, name) <==> exists s, k, l :: s != name && NullLane(connections, s, k, l)
  {
    BesideIsAnother(connections, name);
    if key :| NullAt(connections, key) && key.source != name {
      assert NullLane(connections, key.source, key.kind, key.lane);
    }
    if s, k, l :| s != name && NullLane(connections, s, k, l) {
      assert NullAt(connections, LaneKey(s, k, l));
    }
    hide NullLaneBeside;
  }

  lemma NullForAnEdgeIs(source: Connections, target: Connections)
    ensures NullForAnEdge(source, target) <==> exists s, k, l :: NullLane(target, s, k, l) && HasEdges(source, s, k, l)
  {
    if key :| NullAt(target, key) && LaneAt(source, key) != [] {
      assert NullLane(target, key.source, key.kind, key.lane) && HasEdges(source, key.source, key.kind, key.lane);
    }
    if s, k, l :| NullLane(target, s, k, l) && HasEdges(source, s, k, l) {
      assert NullAt(target, LaneKey(s, k, l)) && LaneAt(source, LaneKey(s, k, l)) != [];
    }
  }
}
