/**
 Rebuilding a second time, the webhook guard of `scripts/vps_cutover_apply.py`, and the
 rehearsal that puts compiler, interpreter, guard and checker together.
 */
module CutoverFixpoint {
  import opened Prelude
  import opened JsonValues
  import opened Strings
  import opened CutoverModel
  import opened CutoverApply
  import opened CutoverBuild
  import opened CutoverVerify
  import opened CutoverPhases
  import opened CutoverResult
  import opened CutoverNulls
  import opened CutoverGuarantees

  // ---- A second rebuild, node by node ----

  lemma {:induction false} KeepConcat(a: seq<Edge>, b: seq<Edge>, p: Edge -> bool)
    ensures Keep(a + b, p) == Keep(a, p) + Keep(b, p)
  {
    if a == [] {
      assert a + b == b;
    } else {
      assert (a + b)[1..] == a[1..] + b;
      KeepConcat(a[1..], b, p);
    }
  }

  /** A rebuilt node is its own rebuild, unless its version was a default. */
  lemma RebuiltAgain(node: Node, existing: Option<Node>, parameters: map<string, Json>, credentials: Credentials)
    requires UniqueKeys(credentials)
    ensures var once := Rebuilt(node, existing, parameters, credentials);
            InPlace(node, Some(once))
            && (!InPlace(node, existing) && node.typeVersion.None?
                ==> Rebuilt(node, Some(once), parameters, credentials).typeVersion != once.typeVersion)
            && (InPlace(node, existing) || node.typeVersion.Some?
                ==> Rebuilt(node, Some(once), parameters, credentials) == once)
  {
    var once := Rebuilt(node, existing, parameters, credentials);
    DisabledAgrees(node, existing, parameters, credentials);
    hide Truth, IfTruthy, Restrict, PositionOf, NODE_SETTING_KEYS;
    forall key | Lookup(credentials, key).Some? ensures Lookup(once.credentials, key) == Lookup(credentials, key) {
      if InPlace(node, existing) { LookupPutAll(existing.value.credentials, credentials, key); }
    }
    PutAllSame(once.credentials, credentials);
    var kept := Restrict(node.settings, NODE_SETTING_KEYS);
    assert forall before: map<string, Json> :: before + kept + kept == before + kept;
    assert kept + kept == kept;
  }

  // ---- Canonical connections ----

  lemma TidyLane(connections: Connections, source: string, kind: string)
    requires Tidy(connections) && source in connections && kind in connections[source]
    ensures var last := |connections[source][kind]| - 1;
            last >= 0 && LaneAt(connections, LaneKey(source, kind, last)) != []
  {
  }

  /** A lane is determined by its edges and by whether it is null. */
  lemma LaneIs(connections: Connections, key: LaneKey)
    requires key.source in connections && key.kind in connections[key.source]
    requires key.lane < |connections[key.source][key.kind]|
    ensures connections[key.source][key.kind][key.lane]
         == if NullAt(connections, key) then None else Some(LaneAt(connections, key))
  {
  }

  ghost predicate SameLanes(a: Connections, b: Connections) {
    (forall key :: LaneAt(a, key) == LaneAt(b, key)) && SameNulls(a, b)
  }

  lemma TidyEntries(a: Connections, b: Connections)
    requires Tidy(a) && Tidy(b) && SameLanes(a, b)
    ensures forall s | s in a :: s in b
    ensures forall s, t | s in a && t in a[s] :: s in b && t in b[s] && |a[s][t]| <= |b[s][t]|
  {
    forall s, t | s in a && t in a[s] ensures s in b && t in b[s] && |a[s][t]| <= |b[s][t]| {
      TidyLane(a, s, t);
      assert LaneAt(b, LaneKey(s, t, |a[s][t]| - 1)) != [];
    }
    forall s | s in a ensures s in b {
      var t :| t in a[s];
    }
  }

  lemma TidyLanes(a: Connections, b: Connections, source: string, kind: string)
    requires SameLanes(a, b)
    requires source in a && kind in a[source] && source in b && kind in b[source]
    requires |a[source][kind]| == |b[source][kind]|
    ensures a[source][kind] == b[source][kind]
  {
    hide LaneAt, NullAt;
    forall i | 0 <= i < |a[source][kind]| ensures a[source][kind][i] == b[source][kind][i] {
      var key := LaneKey(source, kind, i);
      LaneIs(a, key);
      LaneIs(b, key);
      assert LaneAt(a, key) == LaneAt(b, key) && (NullAt(a, key) <==> NullAt(b, key));
    }
  }

  lemma TidySource(a: Connections, b: Connections, source: string)
    requires Tidy(a) && Tidy(b) && SameLanes(a, b) && SameLanes(b, a)
    requires source in a
    ensures source in b && a[source] == b[source]
  {
    hide SameLanes, Tidy;
    TidyEntries(a, b);
    TidyEntries(b, a);
    var here, there := a[source], b[source];
    assert here.Keys == there.Keys;
    forall t | t in here ensures here[t] == there[t] {
      TidyLanes(a, b, source, t);
    }
  }

  lemma SameLanesBack(a: Connections, b: Connections)
    requires SameLanes(a, b)
    ensures SameLanes(b, a)
  {
    hide LaneAt, NullAt;
  }

  /** Tidy connections are determined by the edges of their lanes and by which of these are null. */
  lemma TidyIsCanonical(a: Connections, b: Connections)
    requires Tidy(a) && Tidy(b) && SameLanes(a, b)
    ensures a == b
  {
    SameLanesBack(a, b);
    hide SameLanes, Tidy;
    forall s | s in a ensures s in b && a[s] == b[s] { TidySource(a, b, s); }
    forall s | s in b ensures s in a { TidySource(b, a, s); }
    assert a.Keys == b.Keys;
  }

  // ---- A second rebuild ----

  lemma DrawnIsIndexed(key: LaneKey, edges: seq<Edge>)
    ensures forall e | e in Reindexed(key, edges) :: e.index.Some?
  {
  }

  lemma SurvivorsAgain(edges: seq<Edge>, drawn: seq<Edge>, source: string, gone: set<string>)
    requires forall e | e in drawn :: e.index.Some?
    ensures Keep(Keep(edges, Survives(source, gone)) + drawn, Survives(source, {})) == Keep(edges, Survives(source, gone))
  {
    var kept := Keep(edges, Survives(source, gone));
    KeepConcat(kept, drawn, Survives(source, {}));
    KeepAll(kept, Survives(source, {}));
    KeepNone(drawn, Survives(source, {}));
  }

  lemma SecondLane(source: Workflow, target: Workflow, once: Workflow, key: LaneKey)
    requires LaneAt(once.connections, key) == RebuiltLane(source, target, key) && Gone(source.nodes, once.nodes) == {}
    ensures RebuiltLane(source, once, key) == LaneAt(once.connections, key)
  {
    hide Gone, LaneAt, Reindexed, Keep, Survives;
    DrawnIsIndexed(key, LaneAt(source.connections, key));
    SurvivorsAgain(LaneAt(target.connections, key), Reindexed(key, LaneAt(source.connections, key)), key.source,
                   Gone(source.nodes, target.nodes));
  }

  lemma NothingGone(once: seq<Node>, source: seq<Node>, target: seq<Node>, maps: Maps, overlay: Overlay)
    requires NodesRebuilt(once, source, target, maps, overlay) && DictionaryCredentials(source)
    ensures NamesOf(source) == NamesOf(once) && Gone(source, once) == {}
  {
    ByNameIsFind(once);
    NoExtraNodes(once, source, target, maps, overlay);
    var byName := ByName(once);
    hide ByName, Find;
    forall node | node in source ensures node.name in byName ==> byName[node.name].kind == node.kind {
      var i :| 0 <= i < |source| && source[i] == node;
      assert NodeAt(byName, node.name) == Some(RebuiltNode(source, i, ByName(target), maps, overlay));
      RebuiltKind(source, i, ByName(target), maps, overlay);
    }
    assert Retyped(source, byName) == {};
  }

  lemma RebuiltKind(source: seq<Node>, i: nat, target: map<string, Node>, maps: Maps, overlay: Overlay)
    requires i < |source|
    ensures RebuiltNode(source, i, target, maps, overlay).kind == source[i].kind
  {
  }

  /** The second rebuild of one node, given what the first made of it. */
  lemma SecondNode(once: seq<Node>, source: seq<Node>, target: seq<Node>, maps: Maps, overlay: Overlay, i: nat)
    requires NodesRebuilt(once, source, target, maps, overlay) && i < |source| && UniqueKeys(source[i].credentials)
    ensures var first := RebuiltNode(source, i, ByName(target), maps, overlay);
            var second := RebuiltNode(source, i, ByName(once), maps, overlay);
            Find(once, source[i].name) == Some(first)
            && (DefaultsVersion(source[i], ByName(target)) ==> second != first)
            && (!DefaultsVersion(source[i], ByName(target)) ==> second == first)
  {
    ByNameIsFind(once);
    MapKeepsUnique(source[i].credentials, maps);
    var existing := NodeAt(ByName(target), source[i].name);
    hide ByName, Find, UniqueNames, UniqueKeys, WantedParameters, MapCredentials, OverlayAt, Updated, Added;
    RebuiltAgain(source[i], existing, WantedParameters(source[i], maps, OverlayAt(source, i, overlay)),
                 MapCredentials(source[i].credentials, maps));
  }

  lemma SameNodes(once: seq<Node>, again: seq<Node>)
    requires SameNames(once, again) && UniqueNames(once) && UniqueNames(again)
    requires forall i | 0 <= i < |once| :: Find(again, once[i].name) == Find(once, once[i].name)
    ensures again == once
  {
    hide Find;
    forall i | 0 <= i < |once| ensures again[i] == once[i] {
      FindIsThe(once, i);
      FindIsThe(again, i);
    }
  }

  lemma SecondNodes(once: seq<Node>, again: seq<Node>, source: seq<Node>, target: seq<Node>, maps: Maps, overlay: Overlay)
    requires NodesRebuilt(once, source, target, maps, overlay) && NodesRebuilt(again, source, once, maps, overlay)
    requires DictionaryCredentials(source)
    ensures again == once <==> forall node | node in source :: !DefaultsVersion(node, ByName(target))
  {
    NothingGone(once, source, target, maps, overlay);
    hide Gone, Find, DefaultsVersion, RebuiltNode, UniqueNames, UniqueKeys, ByName;
    forall i | 0 <= i < |source|
      ensures Find(again, source[i].name) == Find(once, source[i].name) <==> !DefaultsVersion(source[i], ByName(target)) {
      assert source[i] in source;
      SecondNode(once, source, target, maps, overlay, i);
    }
    if forall node | node in source :: !DefaultsVersion(node, ByName(target)) {
      forall i | 0 <= i < |once| ensures Find(again, once[i].name) == Find(once, once[i].name) {
        assert once[i].name in NamesOf(once);
        var j :| 0 <= j < |source| && source[j].name == once[i].name;
        assert source[j] in source;
      }
      SameNodes(once, again);
    } else {
      var node :| node in source && DefaultsVersion(node, ByName(target));
      var i :| 0 <= i < |source| && source[i] == node;
    }
  }

  lemma ChunkRemovesNothing(node: Node, existing: Option<Node>, parameters: map<string, Json>, credentials: Credentials)
    requires InPlace(node, existing)
    ensures forall op | op in NodeChunk(node, existing, parameters, credentials) :: !op.RemoveNode?
  {
    CredentialOpsRemoveNothing(node.name, credentials);
    hide PositionOf, Get, Truth, NODE_SETTING_KEYS, Restrict;
  }

  lemma {:induction false} CredentialOpsRemoveNothing(name: string, credentials: Credentials)
    ensures forall op | op in CredentialOps(name, credentials) :: !op.RemoveNode?
  {
    if credentials != [] { CredentialOpsRemoveNothing(name, credentials[1..]); }
  }

  lemma {:induction false} NodeOpsRemoveNothing(source: seq<Node>, target: map<string, Node>, maps: Maps, overlay: Overlay)
    requires forall node | node in source :: InPlace(node, NodeAt(target, node.name))
    ensures forall op | op in NodeOps(source, target, maps, overlay) :: !op.RemoveNode?
    decreases |source|
  {
    hide InPlace, NodeChunk, WantedParameters, MapCredentials, RestOfOverlay;
    if source != [] {
      assert source[0] in source && forall node | node in source[1..] :: node in source;
      ChunkRemovesNothing(source[0], NodeAt(target, source[0].name), WantedParameters(source[0], maps, overlay),
                          MapCredentials(source[0].credentials, maps));
      NodeOpsRemoveNothing(source[1..], target, maps, RestOfOverlay(source[0], overlay));
    }
  }

  lemma {:induction false} NoExtraOps(nodes: seq<Node>, seen: set<string>)
    requires NamesOf(nodes) <= seen
    ensures ExtraOps(nodes, seen) == []
    decreases |nodes|
  {
    if nodes != [] {
      assert nodes[0].name in NamesOf(nodes) && NamesOf(nodes[1..]) <= NamesOf(nodes);
      NoExtraOps(nodes[1..], seen);
    }
  }

  lemma {:induction false} NothingIsFirst(ops: seq<Operation>)
    requires forall op | op in ops :: !op.RemoveNode?
    ensures FirstRemoved(ops) == None
  {
    if ops != [] {
      assert ops[0] in ops;
      NothingIsFirst(ops[1..]);
    }
  }

  lemma NodePartRemovesNothing(source: Workflow, once: Workflow, maps: Maps, overlay: Overlay)
    requires UniqueNames(once.nodes) && NamesOf(source.nodes) == NamesOf(once.nodes) && Gone(source.nodes, once.nodes) == {}
    ensures forall op | op in NodePart(source, once, maps, overlay) :: !op.RemoveNode?
  {
    ByNameIsFind(once.nodes);
    AllInPlace(source.nodes, once.nodes, ByName(once.nodes));
    hide NodeOps, ExtraOps, ByName, NamesOf, Retyped, InPlace;
    NodeOpsRemoveNothing(source.nodes, ByName(once.nodes), maps, overlay);
    NoExtraOps(once.nodes, NamesOf(source.nodes));
  }

  /** A list compiled where nothing is gone removes no node. */
  lemma AgainRemovesNothing(source: Workflow, once: Workflow, maps: Maps, overlay: Overlay, again: seq<Operation>)
    requires UniqueNames(once.nodes) && NamesOf(source.nodes) == NamesOf(once.nodes) && Gone(source.nodes, once.nodes) == {}
    requires Compiled(again, source, once, maps, overlay)
    ensures forall op | op in again :: !op.RemoveNode?
    ensures FirstRemoved(NodePart(source, once, maps, overlay)) == None
  {
    NodePartRemovesNothing(source, once, maps, overlay);
    hide NodePart, ListsEdges, Gone, NamesOf, UniqueNames, SettingsUpdate;
    NothingIsFirst(NodePart(source, once, maps, overlay));
  }

  /** No lane of a rebuild that has an edge in the source is null. */
  lemma RebuildHasNoNullForAnEdge(source: Workflow, target: Workflow, once: Connections)
    requires LanesRebuilt(once, source, target)
    ensures !NullForAnEdge(source.connections, once)
  {
    hide Survives, Gone, Keep;
    forall key | LaneAt(source.connections, key) != [] ensures !NullAt(once, key) {
      assert LaneAt(once, key) == RebuiltLane(source, target, key);
      assert |Reindexed(key, LaneAt(source.connections, key))| > 0;
    }
  }

  /** The second run stops nowhere and leaves connections with the lanes, null or not, that it found. */
  lemma SecondConnections(source: Workflow, target: Workflow, once: Workflow, maps: Maps, overlay: Overlay, again: seq<Operation>)
    requires UniqueNames(source.nodes) && DictionaryCredentials(source.nodes)
    requires IsRebuild(once, source, target, maps, overlay) && Tidy(once.connections)
    requires Compiled(again, source, once, maps, overlay)
    ensures Interpret(once, again).Done? && IsRebuild(Interpret(once, again).workflow, source, once, maps, overlay)
    ensures Interpret(once, again).workflow.connections == once.connections
  {
    NothingGone(once.nodes, source.nodes, target.nodes, maps, overlay);
    assert UniqueNames(once.nodes);
    AgainRemovesNothing(source, once, maps, overlay, again);
    RebuildHasNoNullForAnEdge(source, target, once.connections);
    hide NodesRebuilt, Compiled, Gone, LaneAt, RebuiltLane, Tidy, UniqueNames, SettingsUpdate, DictionaryCredentials, ApplyAll,
         NullAt, NullForAnEdge, NodePart, NamesOf, SameNulls;
    CompiledRunsExactly(source, once, maps, overlay, again);
    forall key ensures RebuiltLane(source, once, key) == LaneAt(once.connections, key) {
      SecondLane(source, target, once, key);
    }
    var raw := ApplyAll(once, again).workflow;
    NullsKept(once, again);
    forall key ensures LaneAt(raw.connections, key) == LaneAt(once.connections, key) { CleanAt(raw.connections, key); }
    TidyKeepsNulls(once.connections, raw.connections);
    CleanIsTidy(raw.connections);
    assert SameLanes(once.connections, Clean(raw.connections));
    TidyIsCanonical(once.connections, Clean(raw.connections));
  }

  lemma InterpretIsTidy(w: Workflow, ops: seq<Operation>)
    requires Interpret(w, ops).Done?
    ensures Tidy(Interpret(w, ops).workflow.connections)
  {
    CleanIsTidy(ApplyAll(w, ops).workflow.connections);
  }

  /**
   Rebuilding the rebuilt graph from the same source changes nothing, exactly when no node
   the first rebuild added lacked a version.
   */
  lemma RebuildIsAFixpointExactly(source: Workflow, target: Workflow, maps: Maps, overlay: Overlay,
                                  ops: seq<Operation>, again: seq<Operation>)
    requires UniqueNames(source.nodes) && UniqueNames(target.nodes) && DictionaryCredentials(source.nodes)
    requires Compiled(ops, source, target, maps, overlay) && !NullStops(source, target, maps, overlay)
    requires Interpret(target, ops).Done? ==> Compiled(again, source, Interpret(target, ops).workflow, maps, overlay)
    ensures Interpret(target, ops).Done?
    ensures var once := Interpret(target, ops).workflow;
            Interpret(once, again) == Done(once)
            <==> forall node | node in source.nodes :: !DefaultsVersion(node, ByName(target.nodes))
  {
    hide Interpret, Compiled, NullStops, NodesRebuilt, LanesRebuilt, DefaultsVersion, Tidy, UniqueNames, SettingsUpdate,
         DictionaryCredentials, Merge, ByName;
    CompiledRunsExactly(source, target, maps, overlay, ops);
    var once := Interpret(target, ops).workflow;
    InterpretIsTidy(target, ops);
    SecondConnections(source, target, once, maps, overlay, again);
    var twice := Interpret(once, again).workflow;
    SecondNodes(once.nodes, twice.nodes, source.nodes, target.nodes, maps, overlay);
    MergeTwice(target.settings, SettingsUpdate(source.settings, maps));
  }

  lemma MergeTwice(settings: Settings, update: Settings)
    ensures Merge(Merge(settings, update), update) == Merge(settings, update)
  {
    assert settings.common + update.common + update.common == settings.common + update.common;
  }

  // ---- The webhook guard ----

  const URL_BEARING_TYPES: set<string> := {
    "n8n-nodes-base.webhook", "n8n-nodes-base.formTrigger", "n8n-nodes-base.chatTrigger",
    "@n8n/n8n-nodes-langchain.chatTrigger", "n8n-nodes-base.wait"}

  predicate UrlBearing(node: Node) {
    Truth(node.webhookId) && (node.kind in URL_BEARING_TYPES || EndsWith(node.kind, "Trigger"))
  }

  /** A node is URL-bearing when it has a webhook id and is of a listed type or of any trigger type. */
  lemma UrlBearingIs(node: Node)
    ensures UrlBearing(node) <==>
      && Truth(node.webhookId)
      && (|| node.kind in ["n8n-nodes-base.webhook", "n8n-nodes-base.formTrigger", "n8n-nodes-base.chatTrigger",
                           "@n8n/n8n-nodes-langchain.chatTrigger", "n8n-nodes-base.wait"]
          || exists front :: node.kind == front + "Trigger")
  {
    if EndsWith(node.kind, "Trigger") {
      assert node.kind == node.kind[..|node.kind| - 7] + "Trigger";
    }
    if front :| node.kind == front + "Trigger" {
      assert node.kind[|node.kind| - 7..] == "Trigger";
    }
    hide Truth;
  }

  /** The reachable webhook ids by node name; the last of several namesakes wins. */
  function WebhookIds(nodes: seq<Node>): map<string, Json> {
    if nodes == [] then map[]
    else
      var front, last := WebhookIds(nodes[..|nodes| - 1]), nodes[|nodes| - 1];
      if UrlBearing(last) then front[last.name := Get(last.webhookId)] else front
  }

  datatype Complaint = Vanished(name: string) | Changed(name: string)

  predicate Complains(complaint: Complaint, was: map<string, Json>, now: map<string, Json>) {
    match complaint
    case Vanished(name) => name in was && name !in now
    case Changed(name) => name in was && name in now && now[name] != was[name]
  }

  method CheckWebhookIds(before: seq<Node>, after: seq<Node>) returns (complaints: seq<Complaint>)
    ensures forall c :: c in complaints <==> Complains(c, WebhookIds(before), WebhookIds(after))
  {
    var was, now := WebhookIds(before), WebhookIds(after);
    complaints := [];
    var todo := was.Keys;
    while todo != {}
      invariant todo <= was.Keys
      invariant forall c :: c in complaints <==> Complains(c, was, now) && c.name !in todo
      decreases |todo|
    {
      var name :| name in todo;
      if name !in now {
        complaints := complaints + [Vanished(name)];
      } else if now[name] != was[name] {
        complaints := complaints + [Changed(name)];
      }
      todo := todo - {name};
    }
  }

  lemma {:induction false} WebhookIdsAre(nodes: seq<Node>)
    requires UniqueNames(nodes)
    ensures forall name :: name in WebhookIds(nodes)
                           <==> Find(nodes, name).Some? && UrlBearing(Find(nodes, name).value)
    ensures forall name | name in WebhookIds(nodes) :: WebhookIds(nodes)[name] == Get(Find(nodes, name).value.webhookId)
  {
    if nodes == [] { return; }
    var front, last := nodes[..|nodes| - 1], nodes[|nodes| - 1];
    FindsInFront(nodes);
    assert UniqueNames(front);
    hide UrlBearing, Find, UniqueNames;
    WebhookIdsAre(front);
  }

  /** In a list of unique names the last node is found under its own, and the others as in the front. */
  lemma FindsInFront(nodes: seq<Node>)
    requires UniqueNames(nodes) && nodes != []
    ensures var front, last := nodes[..|nodes| - 1], nodes[|nodes| - 1];
            Find(front, last.name) == None
            && forall name :: Find(nodes, name) == if name == last.name then Some(last) else Find(front, name)
  {
    var front, last := nodes[..|nodes| - 1], nodes[|nodes| - 1];
    assert nodes == front + [last];
    assert forall n | n in front :: n.name != last.name;
    FindsSome(front, last.name);
    hide Find;
    forall name ensures Find(nodes, name) == if name == last.name then Some(last) else Find(front, name) {
      FindAppended(front, last, name);
    }
  }

  /** A rebuilt node answers at the old address exactly when it was updated in place. */
  lemma RebuiltWebhook(node: Node, existing: Option<Node>, parameters: map<string, Json>, credentials: Credentials)
    ensures var rebuilt := Rebuilt(node, existing, parameters, credentials);
            if InPlace(node, existing)
            then rebuilt.webhookId == existing.value.webhookId && UrlBearing(rebuilt) == UrlBearing(existing.value)
            else !UrlBearing(rebuilt)
  {
  }

  /** A reachable webhook whose node has no source node of the same name and type. */
  ghost predicate Orphaned(held: Node, source: seq<Node>) {
    UrlBearing(held) && !(exists node | node in source :: node.name == held.name && node.kind == held.kind)
  }

  /**
   The guard complains about exactly the URL-bearing target nodes without a source node of
   the same name and type, and only ever that they vanished.
   */
  lemma GuardComplainsExactly(source: Workflow, target: Workflow, maps: Maps, overlay: Overlay, ops: seq<Operation>,
                              complaint: Complaint)
    requires UniqueNames(source.nodes) && UniqueNames(target.nodes)
    requires Compiled(ops, source, target, maps, overlay) && !NullStops(source, target, maps, overlay)
    ensures Interpret(target, ops).Done?
    ensures Complains(complaint, WebhookIds(target.nodes), WebhookIds(Interpret(target, ops).workflow.nodes))
       <==> (complaint.Vanished?
             && exists held | held in target.nodes && held.name == complaint.name :: Orphaned(held, source.nodes))
  {
    hide Interpret, Compiled, LanesRebuilt, UrlBearing, NullStops;
    CompiledRunsExactly(source, target, maps, overlay, ops);
    var result := Interpret(target, ops).workflow;
    var name := complaint.name;
    WebhookIdsAre(target.nodes);
    WebhookIdsAre(result.nodes);
    ByNameIsFind(target.nodes);
    FindsSome(target.nodes, name);
    hide WebhookIds, ByName;
    if held :| held in target.nodes && held.name == name {
      var k :| 0 <= k < |target.nodes| && target.nodes[k] == held;
      FindIsThe(target.nodes, k);
      if i :| 0 <= i < |source.nodes| && source.nodes[i].name == name {
        RebuiltWebhook(source.nodes[i], Some(held), WantedParameters(source.nodes[i], maps, OverlayAt(source.nodes, i, overlay)),
                       MapCredentials(source.nodes[i].credentials, maps));
        SoleNamesake(source.nodes, i, held.kind);
        SoleNamesake(target.nodes, k, held.kind);
        assert NodeAt(ByName(target.nodes), name) == Some(held);
      } else {
        assert name !in NamesOf(source.nodes);
        SoleNamesake(target.nodes, k, held.kind);
      }
    }
  }

  lemma SoleNamesake(nodes: seq<Node>, i: nat, kind: string)
    requires UniqueNames(nodes) && i < |nodes|
    ensures forall node | node in nodes && node.name == nodes[i].name :: node == nodes[i]
    ensures (exists node | node in nodes :: node.name == nodes[i].name && node.kind == kind) <==> nodes[i].kind == kind
  {
    assert nodes[i] in nodes;
  }

  // ---- The rehearsal ----

  // Raised is the TypeError of a null lane.
  datatype Outcome =
    | UnmatchedFiles(keys: set<string>)
    | Raised
    | WebhookGuard(complaints: seq<Complaint>)
    | Verified(mismatches: seq<Mismatch>)

  lemma {:induction false} OverlayLeftIs(source: seq<Node>, overlay: Overlay)
    ensures OverlayLeft(source, overlay) == OverlayAt(source, |source|, overlay)
    decreases |source|
  {
    if source != [] {
      OverlayLeftIs(source[1..], RestOfOverlay(source[0], overlay));
      OverlaySplit(source, |source| - 1, overlay);
    }
  }

  ghost predicate SomeUnmatched(source: seq<Node>, overlay: Overlay) {
    exists key | key in overlay :: !TakenBefore(source, |source|, key)
  }

  ghost predicate LosesWebhook(source: seq<Node>, target: seq<Node>) {
    exists held | held in target :: Orphaned(held, source)
  }

  /**
   The dry run: compile, refuse when overlay files are left, interpret, guard the webhooks,
   compare. It ends with nothing to report exactly when every file found a Code node, the run
   meets no null lane, no reachable webhook is lost and the rebuild matches cleanly.
   */
  method Rehearse(source: Workflow, target: Workflow, maps: Maps, overlay: Overlay) returns (outcome: Outcome)
    requires UniqueNames(source.nodes) && UniqueNames(target.nodes) && DictionaryCredentials(source.nodes)
    ensures outcome.UnmatchedFiles? <==> SomeUnmatched(source.nodes, overlay)
    ensures outcome.UnmatchedFiles? ==>
      forall key :: key in outcome.keys <==>
        key in overlay && !exists n | n in source.nodes :: n.kind == "n8n-nodes-base.code" && OverlayKey(n.name) == key
    ensures outcome.Raised? <==> !SomeUnmatched(source.nodes, overlay) && NullStops(source, target, maps, overlay)
    ensures outcome.WebhookGuard? <==>
      !SomeUnmatched(source.nodes, overlay) && !NullStops(source, target, maps, overlay)
      && LosesWebhook(source.nodes, target.nodes)
    ensures outcome.WebhookGuard? ==>
      forall c :: c in outcome.complaints <==>
        c.Vanished? && exists held | held in target.nodes && held.name == c.name :: Orphaned(held, source.nodes)
    ensures outcome == Verified([]) <==>
      !SomeUnmatched(source.nodes, overlay) && !NullStops(source, target, maps, overlay)
      && !LosesWebhook(source.nodes, target.nodes) && MatchesCleanly(source, target, maps, overlay)
    ensures outcome.Verified? ==>
      forall m :: m in outcome.mismatches <==> LeftDifferent(m, source, target, maps, overlay)
  {
    hide UniqueNames, NullStops, DictionaryCredentials, OverlayAt, Compiled, Interpret, TakenBefore, UrlBearing,
         LeftDifferent, IsMismatch, MatchesCleanly, Complains, LosesWebhook, IsRebuild;
    var ops, unmatched := BuildOperations(source, target, maps, overlay);
    OverlayLeftIs(source.nodes, overlay);
    UnmatchedKeys(source.nodes, overlay);
    if unmatched != map[] {
      LeftKeys(source.nodes, overlay);
      return UnmatchedFiles(unmatched.Keys);
    }
    CompiledRunsExactly(source, target, maps, overlay, ops);
    var applied := ApplyOperations(target, ops);
    if applied.Failed? { return Raised; }
    CheckerSilentExactly(source, target, maps, overlay, ops);
    var rebuilt := applied.workflow;
    var complaints := CheckWebhookIds(target.nodes, rebuilt.nodes);
    GuardSilentExactly(source, target, maps, overlay, ops);
    if complaints != [] {
      assert complaints[0] in complaints;
      assert Complains(complaints[0], WebhookIds(target.nodes), WebhookIds(rebuilt.nodes));
      forall c ensures c in complaints <==>
        (c.Vanished? && exists held | held in target.nodes && held.name == c.name :: Orphaned(held, source.nodes)) {
        GuardComplainsExactly(source, target, maps, overlay, ops, c);
      }
      return WebhookGuard(complaints);
    }
    var mismatches := Compare(source, rebuilt, maps, overlay);
    forall m ensures IsMismatch(m, source, rebuilt, maps, overlay) <==> LeftDifferent(m, source, target, maps, overlay) {
      CheckerReportsExactly(source, target, maps, overlay, ops, m);
    }
    assert mismatches != [] ==> mismatches[0] in mismatches;
    outcome := Verified(mismatches);
  }

  lemma LeftKeys(source: seq<Node>, overlay: Overlay)
    ensures forall key :: key in OverlayAt(source, |source|, overlay) <==>
      key in overlay && !exists n | n in source :: n.kind == "n8n-nodes-base.code" && OverlayKey(n.name) == key
  {
    forall key ensures TakenBefore(source, |source|, key) <==>
      exists n | n in source :: n.kind == "n8n-nodes-base.code" && OverlayKey(n.name) == key {
    }
  }

  lemma UnmatchedKeys(source: seq<Node>, overlay: Overlay)
    ensures OverlayAt(source, |source|, overlay) == map[] <==> !SomeUnmatched(source, overlay)
  {
    hide TakenBefore;
    if key :| key in overlay && !TakenBefore(source, |source|, key) {
      assert key in OverlayAt(source, |source|, overlay);
    }
  }

  /** The guard passes exactly when every URL-bearing target node has a source node of its name and type. */
  lemma GuardSilentExactly(source: Workflow, target: Workflow, maps: Maps, overlay: Overlay, ops: seq<Operation>)
    requires UniqueNames(source.nodes) && UniqueNames(target.nodes)
    requires Compiled(ops, source, target, maps, overlay) && !NullStops(source, target, maps, overlay)
    ensures Interpret(target, ops).Done?
    ensures (forall c :: !Complains(c, WebhookIds(target.nodes), WebhookIds(Interpret(target, ops).workflow.nodes)))
       <==> !LosesWebhook(source.nodes, target.nodes)
  {
    hide Interpret, Compiled, IsRebuild, Orphaned, WebhookIds, Complains, UniqueNames, NullStops;
    CompiledRunsExactly(source, target, maps, overlay, ops);
    forall c ensures Complains(c, WebhookIds(target.nodes), WebhookIds(Interpret(target, ops).workflow.nodes))
      <==> (c.Vanished?
            && exists held | held in target.nodes && held.name == c.name :: Orphaned(held, source.nodes)) {
      GuardComplainsExactly(source, target, maps, overlay, ops, c);
    }
    if LosesWebhook(source.nodes, target.nodes) {
      var held :| held in target.nodes && Orphaned(held, source.nodes);
      assert Complains(Vanished(held.name), WebhookIds(target.nodes), WebhookIds(Interpret(target, ops).workflow.nodes));
    }
  }
}
