/**
 What the cutover guarantees: exactly which differences the checker reports after
 compiling and running, and exactly when a second rebuild changes nothing.
 */
module CutoverGuarantees {
  import opened Prelude
  import opened JsonValues
  import opened CutoverModel
  import opened CutoverApply
  import opened CutoverBuild
  import opened CutoverVerify
  import opened CutoverPhases
  import opened CutoverResult
  import opened CutoverNulls

  // ---- The three ways a rebuild can differ from its source ----

  /** An added node without a version is given version 1, which the checker compares with nothing. */
  predicate DefaultsVersion(node: Node, target: map<string, Node>) {
    !InPlace(node, NodeAt(target, node.name)) && node.typeVersion.None?
  }

  /** An earlier Code node took the overlay file that the checker still expects in this one. */
  predicate LosesFile(source: seq<Node>, i: nat, maps: Maps, overlay: Overlay)
    requires i < |source|
  {
    TakesOverlay(source[i], overlay)
    && TakenBefore(source, i, OverlayKey(source[i].name))
    && ("jsCode" !in source[i].parameters
        || RewriteStrings(source[i].parameters["jsCode"], maps) != JStr(overlay[OverlayKey(source[i].name)]))
  }

  /** A target edge without an index, between nodes that stay, that the source does not have. */
  ghost predicate StrayEdge(edge: FlatEdge, source: Workflow, target: Workflow) {
    edge.index == 0
    && (exists e | e in LaneAt(target.connections, KeyOf(edge)) :: e.index.None? && e.node == edge.target)
    && edge.source !in Gone(source.nodes, target.nodes) && edge.target !in Gone(source.nodes, target.nodes)
    && !HasEdge(source.connections, edge)
  }

  ghost predicate LeftDifferent(m: Mismatch, source: Workflow, target: Workflow, maps: Maps, overlay: Overlay) {
    match m
    case TypeVersionDiffers(name) =>
      exists node | node in source.nodes && node.name == name :: DefaultsVersion(node, ByName(target.nodes))
    case ParametersDiffer(name) =>
      exists i | 0 <= i < |source.nodes| && source.nodes[i].name == name :: LosesFile(source.nodes, i, maps, overlay)
    case ExtraConnection(edge) => StrayEdge(edge, source, target)
    case _ => false
  }

  /** Credentials come from a dictionary: no key twice. */
  ghost predicate DictionaryCredentials(nodes: seq<Node>) {
    forall node | node in nodes :: UniqueKeys(node.credentials)
  }

  // ---- Credentials ----

  lemma {:induction false} MapKeepsUnique(credentials: Credentials, maps: Maps)
    requires UniqueKeys(credentials)
    ensures UniqueKeys(MapCredentials(credentials, maps))
    ensures forall entry | entry in MapCredentials(credentials, maps) ::
      exists original | original in credentials :: original.0 == entry.0
  {
    if credentials != [] {
      MapKeepsUnique(credentials[1..], maps);
      assert forall original | original in credentials[1..] :: original in credentials && original.0 != credentials[0].0;
      assert credentials[0] in credentials;
    }
  }

  lemma {:induction false} LookupEntry(credentials: Credentials, entry: (string, Credential))
    requires UniqueKeys(credentials) && entry in credentials
    ensures Lookup(credentials, entry.0) == Some(entry.1)
  {
    if credentials[0] != entry {
      assert entry in credentials[1..];
      var i :| 0 <= i < |credentials[1..]| && credentials[1..][i] == entry;
      assert credentials[i + 1].0 != credentials[0].0;
      LookupEntry(credentials[1..], entry);
    }
  }

  /** Every mapped credential is bound on the rebuilt node. */
  lemma CredentialsBound(node: Node, existing: Option<Node>, parameters: map<string, Json>, maps: Maps)
    requires UniqueKeys(node.credentials)
    ensures var mapped := MapCredentials(node.credentials, maps);
            forall entry | entry in mapped ::
              CredentialBound(Rebuilt(node, existing, parameters, mapped), entry.0, entry.1.id)
  {
    var mapped := MapCredentials(node.credentials, maps);
    MapKeepsUnique(node.credentials, maps);
    forall entry | entry in mapped ensures CredentialBound(Rebuilt(node, existing, parameters, mapped), entry.0, entry.1.id) {
      LookupEntry(mapped, entry);
      if InPlace(node, existing) { LookupPutAll(existing.value.credentials, mapped, entry.0); }
    }
  }

  // ---- One rebuilt node against its source ----

  lemma SettingsKept(node: Node, existing: Option<Node>, parameters: map<string, Json>, credentials: Credentials, key: string)
    requires key in NODE_SETTING_KEYS
    ensures NodeSettingKept(node, Rebuilt(node, existing, parameters, credentials), key)
  {
    hide NODE_SETTING_KEYS;
  }

  lemma DisabledAgrees(node: Node, existing: Option<Node>, parameters: map<string, Json>, credentials: Credentials)
    ensures Truth(Rebuilt(node, existing, parameters, credentials).disabled) == Truth(node.disabled)
  {
    assert Truth(Some(JBool(true))) && !Truth(None);
  }

  lemma ParametersAgree(source: seq<Node>, i: nat, maps: Maps, overlay: Overlay)
    requires i < |source|
    ensures WantedParameters(source[i], maps, OverlayAt(source, i, overlay)) == WantedParameters(source[i], maps, overlay)
       <==> !LosesFile(source, i, maps, overlay)
  {
    hide OverlayKey, TakenBefore, RewriteStrings;
    var rewritten := RewrittenParameters(source[i], maps);
    var key := OverlayKey(source[i].name);
    if TakesOverlay(source[i], overlay) && TakenBefore(source, i, key) {
      var wanted := rewritten["jsCode" := JStr(overlay[key])];
      if "jsCode" in rewritten && rewritten["jsCode"] == JStr(overlay[key]) {
        assert wanted == rewritten;
      } else {
        assert "jsCode" in wanted && wanted["jsCode"] == JStr(overlay[key]);
      }
    }
  }

  lemma RebuiltNodeDiffers(m: Mismatch, source: seq<Node>, i: nat, target: map<string, Node>, maps: Maps, overlay: Overlay)
    requires i < |source| && UniqueKeys(source[i].credentials)
    ensures NodeDiffers(m, source[i], RebuiltNode(source, i, target, maps, overlay), maps, overlay)
       <==> ((m == TypeVersionDiffers(source[i].name) && DefaultsVersion(source[i], target))
             || (m == ParametersDiffer(source[i].name) && LosesFile(source, i, maps, overlay)))
  {
    var node := source[i];
    var existing := NodeAt(target, node.name);
    var parameters := WantedParameters(node, maps, OverlayAt(source, i, overlay));
    var credentials := MapCredentials(node.credentials, maps);
    ParametersAgree(source, i, maps, overlay);
    CredentialsBound(node, existing, parameters, maps);
    DisabledAgrees(node, existing, parameters, credentials);
    hide LosesFile, CredentialBound, Truth, WantedParameters, MapCredentials, OverlayAt, PutAll, Restrict, NODE_SETTING_KEYS,
         NodeSettingKept, IfTruthy, PositionOf;
    if m.NodeSettingDiffers? && m.key in NODE_SETTING_KEYS { SettingsKept(node, existing, parameters, credentials, m.key); }
  }

  // ---- Edges of the result ----

  lemma {:induction false} FlattenReindexed(key: LaneKey, edges: seq<Edge>)
    ensures Flatten(key, Reindexed(key, edges)) == Flatten(key, edges)
  {
    FlattenAt(key, edges);
    FlattenAt(key, Reindexed(key, edges));
  }

  lemma {:induction false} FlattenConcat(key: LaneKey, a: seq<Edge>, b: seq<Edge>)
    ensures Flatten(key, a + b) == Flatten(key, a) + Flatten(key, b)
  {
    if a == [] {
      assert a + b == b;
    } else {
      assert (a + b)[1..] == a[1..] + b;
      FlattenConcat(key, a[1..], b);
    }
  }

  lemma SurvivorEdges(edge: FlatEdge, lane: seq<Edge>, gone: set<string>)
    ensures edge in Flatten(KeyOf(edge), Keep(lane, Survives(edge.source, gone)))
       <==> edge.index == 0 && edge.source !in gone && edge.target !in gone
            && exists e | e in lane :: e.index.None? && e.node == edge.target
  {
    var kept := Keep(lane, Survives(edge.source, gone));
    var flat := Flatten(KeyOf(edge), kept);
    FlattenAt(KeyOf(edge), kept);
    if edge in flat {
      var i :| 0 <= i < |flat| && flat[i] == edge;
      assert kept[i] in kept;
    }
    if e :| e in lane && e.index.None? && e.node == edge.target && edge.index == 0
            && edge.source !in gone && edge.target !in gone {
      assert e in kept;
      var i :| 0 <= i < |kept| && kept[i] == e;
      assert flat[i] == edge;
    }
  }

  lemma RebuiltEdges(edge: FlatEdge, result: Connections, source: Workflow, target: Workflow)
    requires LanesRebuilt(result, source, target)
    ensures HasEdge(result, edge) <==> HasEdge(source.connections, edge) || StrayEdge(edge, source, target)
  {
    hide Gone, LaneAt, Reindexed, Flatten, Keep, Survives;
    var key, gone := KeyOf(edge), Gone(source.nodes, target.nodes);
    var kept := Keep(LaneAt(target.connections, key), Survives(key.source, gone));
    FlattenConcat(key, kept, Reindexed(key, LaneAt(source.connections, key)));
    FlattenReindexed(key, LaneAt(source.connections, key));
    SurvivorEdges(edge, LaneAt(target.connections, key), gone);
  }

  // ---- Compile, run, check ----

  lemma RebuiltNodesDiffer(m: Mismatch, result: seq<Node>, source: seq<Node>, target: seq<Node>, maps: Maps, overlay: Overlay)
    requires NodesRebuilt(result, source, target, maps, overlay)
    requires UniqueNames(source) && DictionaryCredentials(source)
    ensures NodesDiffer(m, source, ByName(result), maps, overlay)
       <==> exists i | 0 <= i < |source| ::
              (m == TypeVersionDiffers(source[i].name) && DefaultsVersion(source[i], ByName(target)))
              || (m == ParametersDiffer(source[i].name) && LosesFile(source, i, maps, overlay))
  {
    hide DefaultsVersion, LosesFile, NodeDiffers, RebuiltNode, Find, UniqueKeys;
    var byName := ByName(target);
    ByNameIsFind(result);
    hide ByName;
    forall i | 0 <= i < |source|
      ensures AboutNode(m, source[i], ByName(result), maps, overlay)
        <==> (m == TypeVersionDiffers(source[i].name) && DefaultsVersion(source[i], byName))
             || (m == ParametersDiffer(source[i].name) && LosesFile(source, i, maps, overlay)) {
      assert NodeAt(ByName(result), source[i].name) == Some(RebuiltNode(source, i, byName, maps, overlay));
      assert source[i] in source;
      RebuiltNodeDiffers(m, source, i, byName, maps, overlay);
    }
    assert NodesDiffer(m, source, ByName(result), maps, overlay)
      <==> exists i | 0 <= i < |source| :: AboutNode(m, source[i], ByName(result), maps, overlay);
  }

  lemma NoExtraNodes(result: seq<Node>, source: seq<Node>, target: seq<Node>, maps: Maps, overlay: Overlay)
    requires NodesRebuilt(result, source, target, maps, overlay)
    ensures ByName(result).Keys == NamesOf(source)
  {
    hide RebuiltNode, Find;
    ByNameIsFind(result);
    hide ByName;
    forall name ensures name in ByName(result) <==> name in NamesOf(source) {
      assert NodeAt(ByName(result), name) == Find(result, name);
      if name in NamesOf(source) {
        var i :| 0 <= i < |source| && source[i].name == name;
      }
    }
  }

  lemma SettingsAgree(m: Mismatch, source: Settings, target: Settings, maps: Maps)
    ensures !SettingsDiffer(m, source, Merge(target, SettingsUpdate(source, maps)), maps)
  {
    hide ErrorTarget, WORKFLOW_SETTING_KEYS;
  }

  lemma EdgesDifferExactly(edge: FlatEdge, result: Connections, source: Workflow, target: Workflow)
    requires LanesRebuilt(result, source, target)
    ensures HasEdge(source.connections, edge) ==> HasEdge(result, edge)
    ensures HasEdge(result, edge) && !HasEdge(source.connections, edge) <==> StrayEdge(edge, source, target)
  {
    RebuiltEdges(edge, result, source, target);
  }

  lemma RebuildDiffersExactly(source: Workflow, target: Workflow, result: Workflow, maps: Maps, overlay: Overlay,
                              m: Mismatch)
    requires IsRebuild(result, source, target, maps, overlay)
    requires UniqueNames(source.nodes) && DictionaryCredentials(source.nodes)
    ensures IsMismatch(m, source, result, maps, overlay) <==> LeftDifferent(m, source, target, maps, overlay)
  {
    hide NodesDiffer, NodesRebuilt, LanesRebuilt, DefaultsVersion, LosesFile, HasEdge, StrayEdge, SettingsDiffer, Merge,
         SettingsUpdate, DictionaryCredentials, UniqueNames;
    match m {
      case ExtraNode(_) => NoExtraNodes(result.nodes, source.nodes, target.nodes, maps, overlay);
      case MissingConnection(edge) => EdgesDifferExactly(edge, result.connections, source, target);
      case ExtraConnection(edge) => EdgesDifferExactly(edge, result.connections, source, target);
      case SettingDiffers(_) => SettingsAgree(m, source.settings, target.settings, maps);
      case ErrorWorkflowDiffers(_) => SettingsAgree(m, source.settings, target.settings, maps);
      case _ => RebuiltNodesDiffer(m, result.nodes, source.nodes, target.nodes, maps, overlay);
    }
  }

  /**
   Compile, run, check: unless the run stops on a null lane, the checker reports a difference
   exactly when an added node had no version, a Code node lost its overlay file to a namesake, or
   an edge without an index stayed.
   */
  lemma CheckerReportsExactly(source: Workflow, target: Workflow, maps: Maps, overlay: Overlay, ops: seq<Operation>,
                              m: Mismatch)
    requires UniqueNames(source.nodes) && UniqueNames(target.nodes) && DictionaryCredentials(source.nodes)
    requires Compiled(ops, source, target, maps, overlay) && !NullStops(source, target, maps, overlay)
    ensures Interpret(target, ops).Done?
    ensures IsMismatch(m, source, Interpret(target, ops).workflow, maps, overlay)
       <==> LeftDifferent(m, source, target, maps, overlay)
  {
    hide IsMismatch, LeftDifferent, IsRebuild, Interpret, Compiled, DictionaryCredentials, UniqueNames, NullStops;
    CompiledRunsExactly(source, target, maps, overlay, ops);
    RebuildDiffersExactly(source, target, Interpret(target, ops).workflow, maps, overlay, m);
  }

  /** What a caller can check beforehand. */
  ghost predicate MatchesCleanly(source: Workflow, target: Workflow, maps: Maps, overlay: Overlay) {
    && (forall node | node in source.nodes :: !DefaultsVersion(node, ByName(target.nodes)))
    && (forall i | 0 <= i < |source.nodes| :: !LosesFile(source.nodes, i, maps, overlay))
    && (forall edge :: !StrayEdge(edge, source, target))
  }

  lemma NothingLeftExactly(source: Workflow, target: Workflow, maps: Maps, overlay: Overlay)
    ensures (forall m :: !LeftDifferent(m, source, target, maps, overlay))
       <==> MatchesCleanly(source, target, maps, overlay)
  {
    hide DefaultsVersion, LosesFile, StrayEdge, ByName;
    if node :| node in source.nodes && DefaultsVersion(node, ByName(target.nodes)) {
      assert LeftDifferent(TypeVersionDiffers(node.name), source, target, maps, overlay);
    }
    if i :| 0 <= i < |source.nodes| && LosesFile(source.nodes, i, maps, overlay) {
      assert LeftDifferent(ParametersDiffer(source.nodes[i].name), source, target, maps, overlay);
    }
    if edge :| StrayEdge(edge, source, target) {
      assert LeftDifferent(ExtraConnection(edge), source, target, maps, overlay);
    }
  }

  /** The checker is silent exactly on the inputs that have none of the three. */
  lemma CheckerSilentExactly(source: Workflow, target: Workflow, maps: Maps, overlay: Overlay, ops: seq<Operation>)
    requires UniqueNames(source.nodes) && UniqueNames(target.nodes) && DictionaryCredentials(source.nodes)
    requires Compiled(ops, source, target, maps, overlay) && !NullStops(source, target, maps, overlay)
    ensures Interpret(target, ops).Done?
    ensures (forall m :: !IsMismatch(m, source, Interpret(target, ops).workflow, maps, overlay))
       <==> MatchesCleanly(source, target, maps, overlay)
  {
    hide IsMismatch, LeftDifferent, IsRebuild, MatchesCleanly, Interpret, Compiled, NullStops, UniqueNames,
         DictionaryCredentials;
    CompiledRunsExactly(source, target, maps, overlay, ops);
    NothingLeftExactly(source, target, maps, overlay);
    forall m
      ensures IsMismatch(m, source, Interpret(target, ops).workflow, maps, overlay)
         <==> LeftDifferent(m, source, target, maps, overlay) {
      CheckerReportsExactly(source, target, maps, overlay, ops, m);
    }
  }

  /** When every target edge carries an index, each lane is the source's lane, edge for edge. */
  lemma LanesAreTheSourceLanes(source: Workflow, target: Workflow, maps: Maps, overlay: Overlay, ops: seq<Operation>,
                               key: LaneKey)
    requires UniqueNames(source.nodes) && UniqueNames(target.nodes)
    requires Compiled(ops, source, target, maps, overlay) && !NullStops(source, target, maps, overlay)
    requires forall e | e in LaneAt(target.connections, key) :: e.index.Some?
    ensures Interpret(target, ops).Done?
    ensures LaneAt(Interpret(target, ops).workflow.connections, key) == Reindexed(key, LaneAt(source.connections, key))
  {
    hide Gone, Reindexed, LaneAt, Interpret, Compiled, NullStops, NodesRebuilt;
    CompiledRunsExactly(source, target, maps, overlay, ops);
    KeepNone(LaneAt(target.connections, key), Survives(key.source, Gone(source.nodes, target.nodes)));
  }
}
