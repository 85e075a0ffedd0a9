/**
 The checker of `scripts/vps_cutover_verify.py`: every difference between a rebuilt
 graph and its mapped source. The line about leftover host text is not part of it.
 */
module CutoverVerify {
  import opened Prelude
  import opened JsonValues
  import opened CutoverModel
  import opened CutoverBuild

  datatype Mismatch =
    | MissingNode(name: string)
    | TypeDiffers(name: string)
    | TypeVersionDiffers(name: string)
    | ParametersDiffer(name: string)
    | CredentialDiffers(name: string, key: string)
    | NodeSettingDiffers(name: string, key: string)
    | DisabledDiffers(name: string)
    | ExtraNode(name: string)
    | MissingConnection(edge: FlatEdge)
    | ExtraConnection(edge: FlatEdge)
    | SettingDiffers(key: string)
    | ErrorWorkflowDiffers(want: string)

  // ---- What a difference is ----

  predicate CredentialBound(got: Node, key: string, id: string) {
    Lookup(got.credentials, key).Some? && Lookup(got.credentials, key).value.id == id
  }

  predicate NodeSettingKept(node: Node, got: Node, key: string) {
    GetKey(node.settings, key) == JNull || GetKey(node.settings, key) == GetKey(got.settings, key)
  }

  /** `m` is a difference between a source node and the node found under its name. */
  ghost predicate NodeDiffers(m: Mismatch, node: Node, got: Node, maps: Maps, overlay: Overlay) {
    match m
    case TypeDiffers(name) => name == node.name && got.kind != node.kind
    case TypeVersionDiffers(name) => name == node.name && Get(got.typeVersion) != Get(node.typeVersion)
    case ParametersDiffer(name) => name == node.name && got.parameters != WantedParameters(node, maps, overlay)
    case CredentialDiffers(name, key) =>
      name == node.name
      && exists entry | entry in MapCredentials(node.credentials, maps) ::
           entry.0 == key && !CredentialBound(got, key, entry.1.id)
    case NodeSettingDiffers(name, key) =>
      name == node.name && key in NODE_SETTING_KEYS && !NodeSettingKept(node, got, key)
    case DisabledDiffers(name) => name == node.name && Truth(node.disabled) != Truth(got.disabled)
    case _ => false
  }

  predicate AboutPresentNode(m: Mismatch) {
    m.TypeDiffers? || m.TypeVersionDiffers? || m.ParametersDiffer? || m.CredentialDiffers?
    || m.NodeSettingDiffers? || m.DisabledDiffers?
  }

  lemma NodeDifferencesAreAboutNodes(maps: Maps, overlay: Overlay)
    ensures forall m, node, got :: NodeDiffers(m, node, got, maps, overlay) ==> AboutPresentNode(m)
  {
  }

  ghost predicate HasEdge(connections: Connections, edge: FlatEdge) {
    edge in Flatten(KeyOf(edge), LaneAt(connections, KeyOf(edge)))
  }

  ghost predicate AboutNode(m: Mismatch, node: Node, target: map<string, Node>, maps: Maps, overlay: Overlay) {
    if node.name in target then NodeDiffers(m, node, target[node.name], maps, overlay)
    else m == MissingNode(node.name)
  }

  ghost predicate NodesDiffer(m: Mismatch, source: seq<Node>, target: map<string, Node>, maps: Maps, overlay: Overlay) {
    exists node | node in source :: AboutNode(m, node, target, maps, overlay)
  }

  lemma NodesDifferStep(source: seq<Node>, node: Node, target: map<string, Node>, maps: Maps, overlay: Overlay)
    ensures forall m :: NodesDiffer(m, source + [node], target, maps, overlay)
                        <==> NodesDiffer(m, source, target, maps, overlay) || AboutNode(m, node, target, maps, overlay)
  {
    hide AboutNode;
    assert forall n :: n in source + [node] <==> n in source || n == node;
  }

  ghost predicate SettingsDiffer(m: Mismatch, source: Settings, target: Settings, maps: Maps) {
    match m
    case SettingDiffers(key) =>
      key in WORKFLOW_SETTING_KEYS && key in source.common && GetKey(source.common, key) != GetKey(target.common, key)
    case ErrorWorkflowDiffers(want) =>
      NonEmpty(source.errorWorkflow) && ErrorTarget(source.errorWorkflow.value, maps) == Some(want)
      && target.errorWorkflow != Some(want)
    case _ => false
  }

  /** `m` is a difference between the mapped source and the target. */
  ghost predicate IsMismatch(m: Mismatch, source: Workflow, target: Workflow, maps: Maps, overlay: Overlay) {
    match m
    case ExtraNode(name) => name in ByName(target.nodes) && name !in NamesOf(source.nodes)
    case MissingConnection(edge) => HasEdge(source.connections, edge) && !HasEdge(target.connections, edge)
    case ExtraConnection(edge) => HasEdge(target.connections, edge) && !HasEdge(source.connections, edge)
    case SettingDiffers(_) => SettingsDiffer(m, source.settings, target.settings, maps)
    case ErrorWorkflowDiffers(_) => SettingsDiffer(m, source.settings, target.settings, maps)
    case _ => NodesDiffer(m, source.nodes, ByName(target.nodes), maps, overlay)
  }

  lemma ListedAreHeld(edges: seq<FlatEdge>, connections: Connections)
    requires ListsEdges(edges, connections)
    ensures forall edge :: edge in edges <==> HasEdge(connections, edge)
  {
    forall edge ensures edge in edges <==> HasEdge(connections, edge) {
      assert edge in Project(edges, KeyOf(edge)) <==> edge in edges;
    }
  }

  // ---- The loops of the source ----

  method CredentialMismatches(node: Node, got: Node, wanted: Credentials) returns (found: seq<Mismatch>)
    ensures forall m :: m in found <==>
      m.CredentialDiffers? && m.name == node.name
      && exists entry | entry in wanted :: entry.0 == m.key && !CredentialBound(got, m.key, entry.1.id)
  {
    found := [];
    for i := 0 to |wanted|
      invariant forall m :: m in found <==>
        m.CredentialDiffers? && m.name == node.name
        && exists entry | entry in wanted[..i] :: entry.0 == m.key && !CredentialBound(got, m.key, entry.1.id)
    {
      assert wanted[..i + 1] == wanted[..i] + [wanted[i]];
      if !CredentialBound(got, wanted[i].0, wanted[i].1.id) {
        found := found + [CredentialDiffers(node.name, wanted[i].0)];
      }
    }
    assert wanted[..|wanted|] == wanted;
  }

  method NodeSettingMismatches(node: Node, got: Node) returns (found: seq<Mismatch>)
    ensures forall m :: m in found <==>
      m.NodeSettingDiffers? && m.name == node.name && m.key in NODE_SETTING_KEYS && !NodeSettingKept(node, got, m.key)
  {
    hide NodeSettingKept;
    found := [];
    var keys := NODE_SETTING_KEYS;
    for i := 0 to |keys|
      invariant forall m :: m in found <==>
        m.NodeSettingDiffers? && m.name == node.name && m.key in keys[..i] && !NodeSettingKept(node, got, m.key)
    {
      assert keys[..i + 1] == keys[..i] + [keys[i]];
      if !NodeSettingKept(node, got, keys[i]) {
        found := found + [NodeSettingDiffers(node.name, keys[i])];
      }
    }
    assert keys[..|keys|] == keys;
  }

  method NodeMismatches(node: Node, got: Node, maps: Maps, overlay: Overlay) returns (found: seq<Mismatch>)
    ensures forall m :: m in found <==> NodeDiffers(m, node, got, maps, overlay)
  {
    hide WantedParameters, MapCredentials, Truth, Get, CredentialBound, NodeSettingKept;
    found := [];
    if got.kind != node.kind {
      found := found + [TypeDiffers(node.name)];
    }
    if Get(got.typeVersion) != Get(node.typeVersion) {
      found := found + [TypeVersionDiffers(node.name)];
    }
    if WantedParameters(node, maps, overlay) != got.parameters {
      found := found + [ParametersDiffer(node.name)];
    }
    var wanted := MapNodeCredentials(node.credentials, maps);
    var credentials := CredentialMismatches(node, got, wanted);
    var settings := NodeSettingMismatches(node, got);
    found := found + credentials + settings;
    if Truth(node.disabled) != Truth(got.disabled) {
      found := found + [DisabledDiffers(node.name)];
    }
  }

  method AllNodeMismatches(source: seq<Node>, target: map<string, Node>, maps: Maps, overlay: Overlay)
    returns (found: seq<Mismatch>, seen: set<string>)
    ensures forall m :: m in found <==> NodesDiffer(m, source, target, maps, overlay)
    ensures seen == NamesOf(source)
  {
    hide NodeDiffers;
    found, seen := [], {};
    for i := 0 to |source|
      invariant forall m :: m in found <==> NodesDiffer(m, source[..i], target, maps, overlay)
      invariant seen == NamesOf(source[..i])
    {
      var node := source[i];
      var more: seq<Mismatch>;
      if node.name in target {
        more := NodeMismatches(node, target[node.name], maps, overlay);
      } else {
        more := [MissingNode(node.name)];
      }
      assert forall m :: m in more <==> AboutNode(m, node, target, maps, overlay);
      NodesDifferStep(source[..i], node, target, maps, overlay);
      assert source[..i + 1] == source[..i] + [node];
      found, seen := found + more, seen + {node.name};
    }
    assert source[..|source|] == source;
  }

  method ExtraNodes(target: seq<Node>, seen: set<string>) returns (found: seq<Mismatch>)
    ensures forall m :: m in found <==> m.ExtraNode? && m.name in ByName(target) && m.name !in seen
  {
    found := [];
    for i := 0 to |target|
      invariant forall m :: m in found <==> m.ExtraNode? && m.name in ByName(target[..i]) && m.name !in seen
    {
      assert target[..i + 1][..i] == target[..i];
      if target[i].name !in seen {
        found := found + [ExtraNode(target[i].name)];
      }
    }
    assert target[..|target|] == target;
  }

  method MissingConnections(edges: seq<FlatEdge>, others: seq<FlatEdge>) returns (found: seq<Mismatch>)
    ensures forall m :: m in found <==> m.MissingConnection? && m.edge in edges && m.edge !in others
  {
    found := [];
    for i := 0 to |edges|
      invariant forall m :: m in found <==> m.MissingConnection? && m.edge in edges[..i] && m.edge !in others
    {
      if edges[i] !in others {
        found := found + [MissingConnection(edges[i])];
      }
    }
  }

  method ExtraConnections(edges: seq<FlatEdge>, others: seq<FlatEdge>) returns (found: seq<Mismatch>)
    ensures forall m :: m in found <==> m.ExtraConnection? && m.edge in edges && m.edge !in others
  {
    found := [];
    for i := 0 to |edges|
      invariant forall m :: m in found <==> m.ExtraConnection? && m.edge in edges[..i] && m.edge !in others
    {
      if edges[i] !in others {
        found := found + [ExtraConnection(edges[i])];
      }
    }
  }

  method EdgeMismatches(source: Connections, target: Connections) returns (found: seq<Mismatch>)
    ensures forall m :: m in found <==>
      (m.MissingConnection? && HasEdge(source, m.edge) && !HasEdge(target, m.edge))
      || (m.ExtraConnection? && HasEdge(target, m.edge) && !HasEdge(source, m.edge))
  {
    hide HasEdge;
    var sourceEdges := ConnectionEdges(source);
    var targetEdges := ConnectionEdges(target);
    ListedAreHeld(sourceEdges, source);
    ListedAreHeld(targetEdges, target);
    var missing := MissingConnections(sourceEdges, targetEdges);
    var extra := ExtraConnections(targetEdges, sourceEdges);
    found := missing + extra;
  }

  method SettingMismatches(source: Settings, target: Settings, maps: Maps) returns (found: seq<Mismatch>)
    ensures forall m :: m in found <==> SettingsDiffer(m, source, target, maps)
  {
    hide ErrorTarget, GetKey;
    found := [];
    var keys := WORKFLOW_SETTING_KEYS;
    for i := 0 to |keys|
      invariant forall m :: m in found <==>
        m.SettingDiffers? && m.key in keys[..i] && m.key in source.common
        && GetKey(source.common, m.key) != GetKey(target.common, m.key)
    {
      assert keys[..i + 1] == keys[..i] + [keys[i]];
      if keys[i] in source.common && GetKey(source.common, keys[i]) != GetKey(target.common, keys[i]) {
        found := found + [SettingDiffers(keys[i])];
      }
    }
    assert keys[..|keys|] == keys;
    if NonEmpty(source.errorWorkflow) {
      var want := ErrorTarget(source.errorWorkflow.value, maps);
      if want.Some? && target.errorWorkflow != want {
        found := found + [ErrorWorkflowDiffers(want.value)];
      }
    }
  }

  method Compare(source: Workflow, target: Workflow, maps: Maps, overlay: Overlay) returns (found: seq<Mismatch>)
    ensures forall m :: m in found <==> IsMismatch(m, source, target, maps, overlay)
  {
    hide NodeDiffers, HasEdge;
    var nodes, seen := AllNodeMismatches(source.nodes, ByName(target.nodes), maps, overlay);
    var extras := ExtraNodes(target.nodes, seen);
    var edges := EdgeMismatches(source.connections, target.connections);
    var settings := SettingMismatches(source.settings, target.settings, maps);
    NodeDifferencesAreAboutNodes(maps, overlay);
    found := nodes + extras + edges + settings;
  }
}
