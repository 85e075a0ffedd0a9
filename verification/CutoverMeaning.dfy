/**
 Compiling, running and checking by the fields of the graphs and the characters of the texts, not
 by the functions that the scripts compute.
 */
module CutoverMeaning {
  import opened Prelude
  import opened JsonValues
  import opened Strings
  import opened CutoverModel
  import opened CutoverApply
  import opened CutoverBuild
  import opened CutoverVerify
  import opened CutoverPhases
  import opened CutoverResult
  import opened CutoverCarries
  import opened CutoverTexts

  // ---- Parameters ----

  ghost predicate CodeNode(node: Node, key: string) {
    node.kind == "n8n-nodes-base.code" && OverlayKey(node.name) == key
  }

  /** The file of the node's key, if it is a Code node and the first one with that key. */
  ghost function FileFor(source: seq<Node>, i: nat, overlay: Overlay): Option<string>
    requires i < |source|
  {
    var key := OverlayKey(source[i].name);
    if CodeNode(source[i], key) && key in overlay && forall j | 0 <= j < i :: !CodeNode(source[j], key)
    then Some(overlay[key]) else None
  }

  lemma WantedIsOut(source: seq<Node>, i: nat, maps: Maps, overlay: Overlay)
    requires i < |source|
    ensures ParametersOut(source[i], FileFor(source, i, overlay),
                          WantedParameters(source[i], maps, OverlayAt(source, i, overlay)), maps)
  {
    var key := OverlayKey(source[i].name);
    assert TakenBefore(source, i, key) <==> exists j | 0 <= j < i :: CodeNode(source[j], key);
    WantedAre(source[i], maps, OverlayAt(source, i, overlay), WantedParameters(source[i], maps, OverlayAt(source, i, overlay)));
    hide ParametersOut, WantedParameters, OverlayKey;
  }

  /** An operation that carries parameters carries those of the source node of its name. */
  ghost predicate CarriesParameters(op: Operation, source: seq<Node>, maps: Maps, overlay: Overlay) {
    match op
    case UpdateNodeParameters(name, replace, parameters) =>
      replace && exists i | 0 <= i < |source| ::
        source[i].name == name && ParametersOut(source[i], FileFor(source, i, overlay), parameters, maps)
    case AddNode(node) =>
      exists i | 0 <= i < |source| ::
        source[i].name == node.name && ParametersOut(source[i], FileFor(source, i, overlay), node.parameters, maps)
    case _ => true
  }

  lemma CredentialOpsCarryNone(name: string, credentials: Credentials)
    ensures forall op | op in CredentialOps(name, credentials) :: op.SetNodeCredential?
  {
  }

  lemma ChunkCarries(node: Node, existing: Option<Node>, parameters: map<string, Json>, credentials: Credentials, op: Operation)
    requires op in NodeChunk(node, existing, parameters, credentials)
    ensures op.UpdateNodeParameters? ==> op.nodeName == node.name && op.replace && op.parameters == parameters
    ensures op.AddNode? ==> op.node.name == node.name && op.node.parameters == parameters
  {
    CredentialOpsCarryNone(node.name, credentials);
    hide CredentialOps, Restrict, PositionOf, Truth, Get;
  }

  lemma {:induction false} NodeOpsCarry(source: seq<Node>, i: nat, target: map<string, Node>, maps: Maps, overlay: Overlay, op: Operation)
    requires i <= |source| && op in NodeOps(source[i..], target, maps, OverlayAt(source, i, overlay))
    ensures CarriesParameters(op, source, maps, overlay)
    decreases |source| - i
  {
    if i < |source| {
      var node, left := source[i], OverlayAt(source, i, overlay);
      var parameters, credentials := WantedParameters(node, maps, left), MapCredentials(node.credentials, maps);
      assert source[i..][0] == node && source[i..][1..] == source[i + 1..];
      OverlayMoves(source, i, overlay);
      if op in NodeChunk(node, NodeAt(target, node.name), parameters, credentials) {
        WantedIsOut(source, i, maps, overlay);
        ChunkCarries(node, NodeAt(target, node.name), parameters, credentials, op);
      } else {
        NodeOpsCarry(source, i + 1, target, maps, overlay, op);
      }
    }
  }

  lemma OverlayMoves(source: seq<Node>, i: nat, overlay: Overlay)
    requires i < |source|
    ensures RestOfOverlay(source[i], OverlayAt(source, i, overlay)) == OverlayAt(source, i + 1, overlay)
  {
    hide OverlayKey;
    forall key ensures TakenBefore(source, i + 1, key) <==> TakenBefore(source, i, key) || WantsFile(source[i], key) {}
  }

  lemma {:induction false} ExtraOpsRemove(nodes: seq<Node>, seen: set<string>)
    ensures forall op | op in ExtraOps(nodes, seen) :: op.RemoveNode?
    decreases |nodes|
  {
    if nodes != [] { ExtraOpsRemove(nodes[1..], if nodes[0].name in seen then seen else seen + {nodes[0].name}); }
  }

  /** No compiled operation carries parameters other than the source's, rewritten and with its file. */
  lemma CompiledParameters(ops: seq<Operation>, source: Workflow, target: Workflow, maps: Maps, overlay: Overlay, op: Operation)
    requires Compiled(ops, source, target, maps, overlay) && op in ops
    ensures CarriesParameters(op, source.nodes, maps, overlay)
  {
    var sourceEdges, targetEdges :|
      ListsEdges(sourceEdges, source.connections) && ListsEdges(targetEdges, target.connections)
      && ops == NodePart(source, target, maps, overlay) + ConnectionPart(source, maps, sourceEdges, targetEdges);
    var nodeOps := NodeOps(source.nodes, ByName(target.nodes), maps, overlay);
    hide ListsEdges, NodeOps, CarriesParameters, SettingsUpdate;
    if op in nodeOps {
      assert source.nodes[0..] == source.nodes;
      NothingTaken(source.nodes, overlay);
      NodeOpsCarry(source.nodes, 0, ByName(target.nodes), maps, overlay, op);
    } else {
      ExtraOpsRemove(target.nodes, NamesOf(source.nodes));
      assert !op.UpdateNodeParameters? && !op.AddNode?;
      OthersCarryNone(op, source.nodes, maps, overlay);
    }
  }

  lemma NothingTaken(source: seq<Node>, overlay: Overlay)
    ensures OverlayAt(source, 0, overlay) == overlay
  {
  }

  lemma OthersCarryNone(op: Operation, source: seq<Node>, maps: Maps, overlay: Overlay)
    requires !op.UpdateNodeParameters? && !op.AddNode?
    ensures CarriesParameters(op, source, maps, overlay)
  {
  }

  /** No string of a compiled operation's parameters holds an identifier that nothing later writes again, files aside. */
  lemma CompiledIdentifiersAreGone(ops: seq<Operation>, source: Workflow, target: Workflow, maps: Maps, overlay: Overlay,
                                   op: Operation, k: nat, key: string)
    requires Compiled(ops, source, target, maps, overlay) && op in ops && (op.UpdateNodeParameters? || op.AddNode?)
    requires k < |Replacements(maps)| && Replacements(maps)[k].0 != ""
    requires forall i | k <= i < |Replacements(maps)| :: Apart(Replacements(maps)[k].0, Replacements(maps)[i].1)
    ensures var parameters := if op.AddNode? then op.node.parameters else op.parameters;
            key in parameters && key != "jsCode" ==> Lacks(parameters[key], Replacements(maps)[k].0)
  {
    CompiledParameters(ops, source, target, maps, overlay, op);
    var parameters := if op.AddNode? then op.node.parameters else op.parameters;
    var name := if op.AddNode? then op.node.name else op.nodeName;
    var i :| 0 <= i < |source.nodes| && source.nodes[i].name == name
      && ParametersOut(source.nodes[i], FileFor(source.nodes, i, overlay), parameters, maps);
    hide Compiled, FileFor, Apart, TreeOut, Lacks, Replacements;
    if key in parameters && key != "jsCode" {
      IdentifierIsGone(source.nodes[i].parameters[key], parameters[key], Replacements(maps), k);
    }
  }

  /** A node of the rebuilt graph has them as well. */
  lemma RebuiltParameters(source: seq<Node>, i: nat, target: map<string, Node>, maps: Maps, overlay: Overlay)
    requires i < |source|
    ensures ParametersOut(source[i], FileFor(source, i, overlay), RebuiltNode(source, i, target, maps, overlay).parameters, maps)
  {
    WantedIsOut(source, i, maps, overlay);
    hide ParametersOut, WantedParameters, FileFor, OverlayAt;
  }

  /** The files that no Code node asked for. */
  lemma {:induction false} UnmatchedAre(source: seq<Node>, overlay: Overlay, key: string)
    ensures key in OverlayLeft(source, overlay) <==> key in overlay && forall node | node in source :: !CodeNode(node, key)
    ensures key in OverlayLeft(source, overlay) ==> OverlayLeft(source, overlay)[key] == overlay[key]
    decreases |source|
  {
    hide OverlayKey;
    if source != [] {
      assert key in RestOfOverlay(source[0], overlay) <==> key in overlay && !CodeNode(source[0], key);
      UnmatchedAre(source[1..], RestOfOverlay(source[0], overlay), key);
      assert forall n :: n in source <==> n == source[0] || n in source[1..];
    }
  }

  // ---- Lanes ----

  /** A node keeps its place when both graphs have it under its name with one type. */
  ghost predicate Stays(source: seq<Node>, target: seq<Node>, name: string) {
    exists s, t | s in source && t in target :: s.name == name && t.name == name && s.kind == t.kind
  }

  lemma GoneAre(source: seq<Node>, target: seq<Node>, name: string)
    requires UniqueNames(source) && UniqueNames(target)
    requires exists t | t in target :: t.name == name
    ensures name in Gone(source, target) <==> !Stays(source, target, name)
  {
    ByNameIsFind(target);
    var t :| t in target && t.name == name;
    var j :| 0 <= j < |target| && target[j] == t;
    FindIsThe(target, j);
    assert NodeAt(ByName(target), name) == Some(t);
    forall other | other in target && other.name == name ensures other == t {
      var k :| 0 <= k < |target| && target[k] == other;
    }
    hide ByName, Find;
  }

  /** A lane of the result: the stray edges of the target's, in order, and then the source's, each with an index. */
  lemma RebuiltLaneMeans(source: Workflow, target: Workflow, key: LaneKey)
    ensures var lane, from, gone := RebuiltLane(source, target, key), LaneAt(source.connections, key), Gone(source.nodes, target.nodes);
      && |lane| >= |from|
      && (forall i | 0 <= i < |from| ::
            lane[|lane| - |from| + i]
            == Edge(from[i].node, key.kind, Some(if from[i].index.Some? then from[i].index.value else 0)))
      && (forall e :: e in lane[..|lane| - |from|] <==>
            e in LaneAt(target.connections, key) && e.index.None? && key.source !in gone && e.node !in gone)
  {
    hide *;
    var kept := KeptAre(source, target, key);
    ReindexedAt(key, LaneAt(source.connections, key));
  }

  lemma KeptAre(source: Workflow, target: Workflow, key: LaneKey) returns (kept: seq<Edge>)
    ensures RebuiltLane(source, target, key) == kept + Reindexed(key, LaneAt(source.connections, key))
    ensures var gone := Gone(source.nodes, target.nodes);
      forall e :: e in kept <==>
        e in LaneAt(target.connections, key) && e.index.None? && key.source !in gone && e.node !in gone
  {
    hide LaneAt, Gone, Reindexed, Keep;
    kept := Keep(LaneAt(target.connections, key), Survives(key.source, Gone(source.nodes, target.nodes)));
  }

  lemma {:induction false} ReindexedAt(key: LaneKey, edges: seq<Edge>)
    ensures |Reindexed(key, edges)| == |edges|
    ensures forall i | 0 <= i < |edges| ::
      Reindexed(key, edges)[i] == Edge(edges[i].node, key.kind, Some(if edges[i].index.Some? then edges[i].index.value else 0))
  {
  }

  /** What a graph's lanes are: an edge is in a lane exactly when the stored list holds it. */
  lemma LanesAre(connections: Connections, key: LaneKey)
    ensures LaneAt(connections, key) ==
      if key.source in connections && key.kind in connections[key.source] && key.lane < |connections[key.source][key.kind]|
         && connections[key.source][key.kind][key.lane].Some?
      then connections[key.source][key.kind][key.lane].value else []
  {
  }

  // ---- Settings and description ----

  /** The listed settings come from the source where it has them; everything else is the target's. */
  lemma SettingsMean(source: Workflow, target: Workflow, maps: Maps, key: string)
    ensures var settings := Merge(target.settings, SettingsUpdate(source.settings, maps)).common;
            var copied := key in source.settings.common
                          && key in ["executionOrder", "saveDataSuccessExecution", "saveDataErrorExecution",
                                     "saveManualExecutions", "saveExecutionProgress", "executionTimeout", "timezone", "callerPolicy"];
            && (key in settings <==> copied || key in target.settings.common)
            && (key in settings ==> settings[key] == if copied then source.settings.common[key] else target.settings.common[key])
  {
    hide MapCallers, ErrorTarget, Split, JoinCommas;
  }

  /** The error workflow: the map's own entry, else the twin in the workflow map, else the target keeps its own. */
  lemma ErrorWorkflowMeans(source: Workflow, target: Workflow, maps: Maps)
    ensures var result := Merge(target.settings, SettingsUpdate(source.settings, maps)).errorWorkflow;
            var id := if source.settings.errorWorkflow.Some? then source.settings.errorWorkflow.value else "";
            var twin := PairGet(maps.workflowIds, id);
            result == if id == "" then target.settings.errorWorkflow
                      else if id in maps.errorWorkflows && maps.errorWorkflows[id] != "" then Some(maps.errorWorkflows[id])
                      else if twin.Some? && twin.value != "" then twin
                      else target.settings.errorWorkflow
  {
    hide MapCallers, Split, JoinCommas, Restrict, PairGet;
  }

  /** The first pair of that key. */
  lemma {:induction false} PairGetIs(pairs: Pairs, key: string)
    ensures PairGet(pairs, key).Some? <==> exists i | 0 <= i < |pairs| :: pairs[i].0 == key
    ensures forall i | 0 <= i < |pairs| && pairs[i].0 == key && (forall j | 0 <= j < i :: pairs[j].0 != key) ::
      PairGet(pairs, key) == Some(pairs[i].1)
  {
    if pairs != [] {
      PairGetIs(pairs[1..], key);
      if pairs[0].0 != key {
        forall i | 0 <= i < |pairs| && pairs[i].0 == key && (forall j | 0 <= j < i :: pairs[j].0 != key)
          ensures PairGet(pairs, key) == Some(pairs[i].1)
        {
          assert pairs[1..][i - 1] == pairs[i] && forall j | 0 <= j < i - 1 :: pairs[1..][j] == pairs[j + 1];
        }
      }
    }
  }

  /** The callers: the source's nonblank ones, in order, each as its twin or itself, joined by commas. */
  lemma CallersMean(source: Workflow, target: Workflow, maps: Maps)
    ensures var result, callers := Merge(target.settings, SettingsUpdate(source.settings, maps)).callerIds, source.settings.callerIds;
            result == if callers.None? then target.settings.callerIds
                      else Some(JoinCommas(MapCallers(Split(callers.value, ','), maps)))
  {
    hide MapCallers, Split, JoinCommas, Restrict, ErrorTarget;
  }

  /** One more caller in the list adds itself or its twin at the end, and a blank one adds nothing. */
  lemma {:induction false} CallersGrow(parts: seq<string>, caller: string, maps: Maps)
    ensures MapCallers([], maps) == []
    ensures var bare := Strip(caller, Blank);
            var twin := PairGet(maps.workflowIds, bare);
            MapCallers(parts + [caller], maps)
            == MapCallers(parts, maps) + (if bare == "" then [] else if twin.Some? then [twin.value] else [bare])
  {
    hide Strip, PairGet;
    if parts == [] {
      assert [caller][1..] == [] && parts + [caller] == [caller];
    } else {
      assert (parts + [caller])[1..] == parts[1..] + [caller];
      CallersGrow(parts[1..], caller, maps);
    }
  }

  /** Splitting at commas and joining with commas are each other's inverse. */
  lemma {:induction false} SplitJoins(text: string)
    ensures JoinCommas([]) == ""
    ensures JoinCommas(Split(text, ',')) == text && forall part | part in Split(text, ',') :: ',' !in part
  {
    if text != "" {
      var rest := Split(text[1..], ',');
      SplitJoins(text[1..]);
      if text[0] == ',' {
        assert ([""] + rest)[1..] == rest;
      } else {
        JoinHead(text[0], rest);
        forall part | part in [[text[0]] + rest[0]] + rest[1..] ensures ',' !in part {
          assert part == [text[0]] + rest[0] || part in rest;
          assert rest[0] in rest;
        }
      }
    }
  }

  lemma JoinHead(c: char, parts: seq<string>)
    requires parts != []
    ensures JoinCommas([[c] + parts[0]] + parts[1..]) == [c] + JoinCommas(parts)
  {
    var more := [[c] + parts[0]] + parts[1..];
    assert more[1..] == parts[1..];
  }

  lemma {:induction false} JoinSplits(parts: seq<string>)
    requires parts != [] && forall part | part in parts :: ',' !in part
    ensures Split(JoinCommas(parts), ',') == parts
  {
    if |parts| == 1 {
      PlainSplits(parts[0]);
    } else {
      assert forall part | part in parts[1..] :: part in parts;
      assert parts[0] in parts;
      JoinSplits(parts[1..]);
      HeadSplits(parts[0], JoinCommas(parts[1..]));
      assert [parts[0]] + parts[1..] == parts;
    }
  }

  lemma {:induction false} PlainSplits(text: string)
    requires ',' !in text
    ensures Split(text, ',') == [text]
  {
    if text != "" {
      PlainSplits(text[1..]);
      assert [text[0]] + text[1..] == text;
    }
  }

  lemma {:induction false} HeadSplits(head: string, rest: string)
    requires ',' !in head
    ensures Split(head + "," + rest, ',') == [head] + Split(rest, ',')
  {
    var text := head + "," + rest;
    if head == "" {
      assert text == "," + rest && text[1..] == rest;
    } else {
      assert text[1..] == head[1..] + "," + rest;
      HeadSplits(head[1..], rest);
      assert [head[0]] + head[1..] == head;
      assert ([head[1..]] + Split(rest, ','))[1..] == Split(rest, ',');
    }
  }

  lemma DescriptionMeans(source: Workflow, target: Workflow)
    ensures NewDescription(source, target) ==
      if source.description.None? || source.description.value == "" then target.description
      else Some(if |source.description.value| > 255 then source.description.value[..255] else source.description.value)
  {
  }

  // ---- Differences ----

  /** null, false, 0, "" and empty lists and objects are false. */
  lemma TruthMeans(member: Option<Json>)
    ensures Truth(member) <==> member.Some? && member.value != JNull && member.value != JBool(false) && member.value != JNum(0)
                               && member.value != JStr("") && member.value != JArr([]) && member.value != JObj(map[])
  {
  }

  ghost predicate Null(member: Option<Json>) {
    member.None? || member.value == JNull
  }

  ghost predicate Same(a: Option<Json>, b: Option<Json>) {
    a == b || (Null(a) && Null(b))
  }

  /** What a difference of one node is, by the fields of the two nodes. */
  lemma NodeDifferenceMeans(m: Mismatch, node: Node, got: Node, maps: Maps, overlay: Overlay)
    requires UniqueKeys(node.credentials) && UniqueKeys(got.credentials)
    ensures var key := OverlayKey(node.name);
            var file := if node.kind == "n8n-nodes-base.code" && key in overlay then Some(overlay[key]) else None;
      NodeDiffers(m, node, got, maps, overlay) <==>
        match m
        case TypeDiffers(name) => name == node.name && got.kind != node.kind
        case TypeVersionDiffers(name) => name == node.name && !Same(got.typeVersion, node.typeVersion)
        case ParametersDiffer(name) => name == node.name && !ParametersOut(node, file, got.parameters, maps)
        case CredentialDiffers(name, kind) =>
          name == node.name && exists c | c in node.credentials && c.0 == kind && c.1.id in maps.credentials ::
            forall g | g in got.credentials && g.0 == kind :: g.1.id != maps.credentials[c.1.id].id
        case NodeSettingDiffers(name, setting) =>
          && name == node.name
          && setting in ["alwaysOutputData", "executeOnce", "retryOnFail", "maxTries", "waitBetweenTries", "onError"]
          && setting in node.settings && node.settings[setting] != JNull
          && (setting in got.settings ==> got.settings[setting] != node.settings[setting])
        case DisabledDiffers(name) => name == node.name && Truth(node.disabled) != Truth(got.disabled)
        case _ => false
  {
    if m.ParametersDiffer? {
      WantedAre(node, maps, overlay, got.parameters);
    } else if m.CredentialDiffers? {
      CredentialDifference(node, got, maps, m.key);
    }
    hide WantedParameters, ParametersOut, MapCredentials, Truth, OverlayKey, CredentialBound;
  }

  lemma CredentialDifference(node: Node, got: Node, maps: Maps, key: string)
    requires UniqueKeys(node.credentials) && UniqueKeys(got.credentials)
    ensures (exists entry | entry in MapCredentials(node.credentials, maps) ::
               entry.0 == key && !CredentialBound(got, key, entry.1.id))
       <==> (exists c | c in node.credentials && c.0 == key && c.1.id in maps.credentials ::
               forall g | g in got.credentials && g.0 == key :: g.1.id != maps.credentials[c.1.id].id)
  {
    if entry :| entry in MapCredentials(node.credentials, maps) && entry.0 == key && !CredentialBound(got, key, entry.1.id) {
      MappedEntries(node.credentials, maps, key, entry.1.id);
      BoundIs(got.credentials, key, entry.1.id);
    }
    if c :| c in node.credentials && c.0 == key && c.1.id in maps.credentials
            && forall g | g in got.credentials && g.0 == key :: g.1.id != maps.credentials[c.1.id].id {
      MappedEntries(node.credentials, maps, key, maps.credentials[c.1.id].id);
      BoundIs(got.credentials, key, maps.credentials[c.1.id].id);
    }
    hide MapCredentials, UniqueKeys, Lookup;
  }

  lemma {:induction false} BoundIs(credentials: Credentials, key: string, id: string)
    requires UniqueKeys(credentials)
    ensures Lookup(credentials, key).Some? && Lookup(credentials, key).value.id == id
       <==> exists g | g in credentials && g.0 == key :: g.1.id == id
  {
    if credentials != [] {
      BoundIs(credentials[1..], key, id);
      assert forall g :: g in credentials <==> g == credentials[0] || g in credentials[1..];
      if credentials[0].0 == key {
        forall g | g in credentials[1..] ensures g.0 != key {
          var i :| 0 <= i < |credentials[1..]| && credentials[1..][i] == g;
          assert credentials[i + 1] == g;
        }
      }
    }
  }

  lemma {:induction false} MappedEntries(credentials: Credentials, maps: Maps, key: string, id: string)
    ensures (exists entry | entry in MapCredentials(credentials, maps) :: entry.0 == key && entry.1.id == id)
       <==> (exists c | c in credentials && c.0 == key && c.1.id in maps.credentials :: maps.credentials[c.1.id].id == id)
  {
    if credentials != [] {
      MappedEntries(credentials[1..], maps, key, id);
      assert forall c :: c in credentials <==> c == credentials[0] || c in credentials[1..];
      var first := MapCredential(credentials[0].1, maps);
      assert MapCredentials(credentials, maps)
          == (if first.Some? then [(credentials[0].0, first.value)] else []) + MapCredentials(credentials[1..], maps);
    }
  }

  /** A connection of a graph: some lane holds an edge to that target with that index, 0 when it has none. */
  lemma {:induction false} ConnectionMeans(connections: Connections, flat: FlatEdge)
    ensures HasEdge(connections, flat) <==>
      exists e | e in LaneAt(connections, LaneKey(flat.source, flat.kind, flat.lane)) ::
        e.node == flat.target && flat.index == if e.index.Some? then e.index.value else 0
  {
    FlattenMeans(KeyOf(flat), LaneAt(connections, KeyOf(flat)), flat);
    hide LaneAt;
  }

  lemma {:induction false} FlattenMeans(key: LaneKey, edges: seq<Edge>, flat: FlatEdge)
    ensures flat in Flatten(key, edges) <==>
      KeyOf(flat) == key && exists e | e in edges :: e.node == flat.target && flat.index == if e.index.Some? then e.index.value else 0
  {
    if edges != [] {
      FlattenMeans(key, edges[1..], flat);
      assert forall e :: e in edges <==> e == edges[0] || e in edges[1..];
      assert Flatten(key, edges)
          == [FlatEdge(key.source, key.kind, key.lane, edges[0].node, IndexOrZero(edges[0]))] + Flatten(key, edges[1..]);
    }
  }

  /** What a difference of the settings is. */
  lemma SettingDifferenceMeans(m: Mismatch, source: Settings, target: Settings, maps: Maps)
    ensures SettingsDiffer(m, source, target, maps) <==>
      match m
      case SettingDiffers(key) =>
        && key in ["executionOrder", "saveDataSuccessExecution", "saveDataErrorExecution", "saveManualExecutions",
                   "saveExecutionProgress", "executionTimeout", "timezone", "callerPolicy"]
        && key in source.common
        && (if key in target.common then source.common[key] != target.common[key] else source.common[key] != JNull)
      case ErrorWorkflowDiffers(want) =>
        && source.errorWorkflow.Some? && source.errorWorkflow.value != "" && want != "" && target.errorWorkflow != Some(want)
        && (var id := source.errorWorkflow.value;
            if id in maps.errorWorkflows && maps.errorWorkflows[id] != "" then want == maps.errorWorkflows[id]
            else PairGet(maps.workflowIds, id) == Some(want))
      case _ => false
  {
    hide PairGet;
  }
}
