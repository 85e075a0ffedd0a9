/**
 What running the compiled operations does, up to the end of the node part.

 A source node becomes one rebuilt node: the target node of its name updated, when that has
 the same type, or a fresh node otherwise. The edits compiled for an update are followed one
 group after the other, a chunk of operations is one update, or a removal and an addition, and
 the whole node part is its chunks in order. Nodes are described by name, so that each chunk
 leaves every other name alone; lanes one by one, so that removing a node only filters them.

 The overlay is followed along: which of its files are left when a source node's turn comes
 depends on the Code nodes before it, and on nothing else.
 */
module CutoverPhases {
  import opened Prelude
  import opened JsonValues
  import opened CutoverModel
  import opened CutoverApply
  import opened CutoverBuild

  // ---- The node a source node becomes ----

  function Updated(existing: Node, node: Node, parameters: map<string, Json>, credentials: Credentials): Node {
    existing.(
      parameters := parameters,
      typeVersion := if Get(existing.typeVersion) != Get(node.typeVersion) then Some(Get(node.typeVersion))
                     else existing.typeVersion,
      credentials := PutAll(existing.credentials, credentials),
      position := Some(PositionOf(node)),
      disabled := if Truth(existing.disabled) == Truth(node.disabled) then existing.disabled
                  else if Truth(node.disabled) then Some(JBool(true)) else None,
      settings := existing.settings + Restrict(node.settings, NODE_SETTING_KEYS))
  }

  function Added(node: Node, parameters: map<string, Json>, credentials: Credentials): Node {
    FreshNode(node, parameters, credentials).(settings := Restrict(node.settings, NODE_SETTING_KEYS))
  }

  function Rebuilt(node: Node, existing: Option<Node>, parameters: map<string, Json>, credentials: Credentials)
    : (rebuilt: Node)
    ensures rebuilt.name == if InPlace(node, existing) then existing.value.name else node.name
  {
    if InPlace(node, existing) then Updated(existing.value, node, parameters, credentials)
    else Added(node, parameters, credentials)
  }

  predicate WantsFile(node: Node, key: string) {
    node.kind == CODE_TYPE && OverlayKey(node.name) == key
  }

  /** One of the first `i` nodes is a Code node with that overlay key. */
  predicate TakenBefore(source: seq<Node>, i: nat, key: string)
    requires i <= |source|
  {
    exists j | 0 <= j < i :: WantsFile(source[j], key)
  }

  /** The overlay left when the first `i` source nodes have taken their files. */
  function OverlayAt(source: seq<Node>, i: nat, overlay: Overlay): Overlay
    requires i <= |source|
  {
    map key | key in overlay && !TakenBefore(source, i, key) :: overlay[key]
  }

  function RebuiltNode(source: seq<Node>, i: nat, target: map<string, Node>, maps: Maps, overlay: Overlay): Node
    requires i < |source|
  {
    Rebuilt(source[i], NodeAt(target, source[i].name),
            WantedParameters(source[i], maps, OverlayAt(source, i, overlay)),
            MapCredentials(source[i].credentials, maps))
  }

  // ---- Names ----

  lemma SameNamesSameIndex(a: seq<Node>, b: seq<Node>, name: string)
    requires |a| == |b|
    requires forall i | 0 <= i < |a| :: a[i].name == b[i].name
    ensures IndexOf(a, name) == IndexOf(b, name)
  {
  }

  lemma FindWithout(nodes: seq<Node>, name: string, other: string)
    requires UniqueNames(nodes)
    ensures UniqueNames(WithoutNode(nodes, name))
    ensures Find(WithoutNode(nodes, name), other) == if other == name then None else Find(nodes, other)
  {
    WithoutKeepsUnique(nodes, name);
    FindsSome(nodes, other);
    FindsSome(WithoutNode(nodes, name), other);
    if Find(nodes, other).Some? && other != name {
      var found := Find(nodes, other).value;
      assert found in WithoutNode(nodes, name);
      var i :| 0 <= i < |WithoutNode(nodes, name)| && WithoutNode(nodes, name)[i] == found;
      FindIsThe(WithoutNode(nodes, name), i);
    }
  }

  lemma {:induction false} WithoutKeepsUnique(nodes: seq<Node>, name: string)
    requires UniqueNames(nodes)
    ensures UniqueNames(WithoutNode(nodes, name))
  {
    if nodes != [] {
      WithoutKeepsUnique(nodes[1..], name);
      assert forall n | n in WithoutNode(nodes[1..], name) :: n in nodes[1..] && n.name != nodes[0].name;
    }
  }

  lemma FindAppended(nodes: seq<Node>, node: Node, other: string)
    requires UniqueNames(nodes) && forall n | n in nodes :: n.name != node.name
    ensures UniqueNames(nodes + [node])
    ensures Find(nodes + [node], other) == if other == node.name then Some(node) else Find(nodes, other)
  {
    var i, j := IndexOf(nodes, other), IndexOf(nodes + [node], other);
    if i < |nodes| {
      assert (nodes + [node])[i].name == other && nodes[i] in nodes;
      assert j == i;
    } else if other == node.name {
      assert (nodes + [node])[|nodes|].name == other;
      assert j == |nodes|;
    }
  }

  // ---- Edits of one node ----

  ghost predicate AreEdits(ops: seq<Operation>, name: string) {
    forall op | op in ops :: IsEdit(op) && op.nodeName == name
  }

  function EditAll(node: Node, ops: seq<Operation>): (edited: Node)
    requires forall op | op in ops :: IsEdit(op)
    ensures edited.name == node.name
    decreases |ops|
  {
    if ops == [] then node else EditAll(EditNode(node, ops[0]), ops[1..])
  }

  lemma {:induction false} EditConcat(node: Node, a: seq<Operation>, b: seq<Operation>)
    requires forall op | op in a + b :: IsEdit(op)
    requires forall op | op in a :: IsEdit(op)
    requires forall op | op in b :: IsEdit(op)
    ensures EditAll(node, a + b) == EditAll(EditAll(node, a), b)
    decreases |a|
  {
    if a == [] {
      assert a + b == b;
    } else {
      assert (a + b)[1..] == a[1..] + b;
      EditConcat(EditNode(node, a[0]), a[1..], b);
    }
  }

  lemma {:induction false} ApplyEdits(w: Workflow, ops: seq<Operation>, name: string)
    requires AreEdits(ops, name) && IndexOf(w.nodes, name) < |w.nodes|
    ensures ApplyAll(w, ops)
         == Done(w.(nodes := w.nodes[IndexOf(w.nodes, name) := EditAll(w.nodes[IndexOf(w.nodes, name)], ops)]))
    decreases |ops|
  {
    var i := IndexOf(w.nodes, name);
    if ops == [] {
      assert w.nodes[i := w.nodes[i]] == w.nodes;
    } else {
      var next := w.(nodes := w.nodes[i := EditNode(w.nodes[i], ops[0])]);
      assert ops[0] in ops;
      SameNamesSameIndex(w.nodes, next.nodes, name);
      ApplyEdits(next, ops[1..], name);
      assert next.nodes[i := EditAll(next.nodes[i], ops[1..])] == w.nodes[i := EditAll(w.nodes[i], ops)];
    }
  }

  lemma {:induction false} EditCredentials(node: Node, name: string, credentials: Credentials)
    ensures AreEdits(CredentialOps(name, credentials), name)
    ensures EditAll(node, CredentialOps(name, credentials))
         == node.(credentials := PutAll(node.credentials, credentials))
    decreases |credentials|
  {
    if credentials != [] {
      EditCredentials(EditNode(node, SetNodeCredential(name, credentials[0].0, credentials[0].1)), name, credentials[1..]);
    }
  }

  lemma EditSettings(existing: Node, node: Node)
    ensures AreEdits(SettingsOps(node), node.name)
    ensures EditAll(existing, SettingsOps(node))
         == existing.(settings := existing.settings + Restrict(node.settings, NODE_SETTING_KEYS))
  {
    assert existing.settings + map[] == existing.settings;
  }

  function VersionOps(node: Node, existing: Node): seq<Operation> {
    if Get(existing.typeVersion) != Get(node.typeVersion)
    then [SetNodeTypeVersion(node.name, Get(node.typeVersion))] else []
  }

  function ToggleOps(node: Node, existing: Node): seq<Operation> {
    if Truth(existing.disabled) != Truth(node.disabled)
    then [SetNodeDisabled(node.name, Truth(node.disabled))] else []
  }

  lemma EditOne(node: Node, op: Operation)
    requires IsEdit(op)
    ensures EditAll(node, [op]) == EditNode(node, op)
  {
    assert [op][1..] == [];
  }

  lemma EditHead(existing: Node, node: Node, parameters: map<string, Json>, credentials: Credentials)
    ensures var ops := [UpdateNodeParameters(node.name, true, parameters)] + VersionOps(node, existing)
                       + CredentialOps(node.name, credentials);
            AreEdits(ops, node.name)
            && EditAll(existing, ops)
               == existing.(
                    parameters := parameters,
                    typeVersion := if Get(existing.typeVersion) != Get(node.typeVersion) then Some(Get(node.typeVersion))
                                   else existing.typeVersion,
                    credentials := PutAll(existing.credentials, credentials))
  {
    hide Get, PutAll;
    var update := UpdateNodeParameters(node.name, true, parameters);
    var one := EditNode(existing, update);
    var two := EditAll(one, VersionOps(node, existing));
    EditOne(existing, update);
    EditOne(one, SetNodeTypeVersion(node.name, Get(node.typeVersion)));
    EditCredentials(two, node.name, credentials);
    EditConcat(existing, [update], VersionOps(node, existing));
    EditConcat(existing, [update] + VersionOps(node, existing), CredentialOps(node.name, credentials));
  }

  lemma EditTail(existing: Node, middle: Node, node: Node)
    requires middle.disabled == existing.disabled
    ensures var ops := [SetNodePosition(node.name, PositionOf(node))] + ToggleOps(node, existing);
            AreEdits(ops, node.name)
            && EditAll(middle, ops)
               == middle.(
                    position := Some(PositionOf(node)),
                    disabled := if Truth(existing.disabled) == Truth(node.disabled) then existing.disabled
                                else if Truth(node.disabled) then Some(JBool(true)) else None)
  {
    hide PositionOf, Truth;
    var position := SetNodePosition(node.name, PositionOf(node));
    EditOne(middle, position);
    EditOne(EditNode(middle, position), SetNodeDisabled(node.name, Truth(node.disabled)));
    EditConcat(middle, [position], ToggleOps(node, existing));
  }

  lemma EditUpdates(existing: Node, node: Node, parameters: map<string, Json>, credentials: Credentials)
    requires existing.name == node.name
    ensures AreEdits(UpdateOps(node, existing, parameters, credentials) + SettingsOps(node), node.name)
    ensures EditAll(existing, UpdateOps(node, existing, parameters, credentials) + SettingsOps(node))
         == Updated(existing, node, parameters, credentials)
  {
    var head := [UpdateNodeParameters(node.name, true, parameters)] + VersionOps(node, existing)
                + CredentialOps(node.name, credentials);
    var tail := [SetNodePosition(node.name, PositionOf(node))] + ToggleOps(node, existing);
    assert UpdateOps(node, existing, parameters, credentials) == head + tail;
    EditHead(existing, node, parameters, credentials);
    var middle := EditAll(existing, head);
    EditTail(existing, middle, node);
    hide VersionOps, ToggleOps, UpdateOps, EditAll, CredentialOps, SettingsOps, IsEdit, PositionOf, Truth, Get, Restrict, PutAll;
    EditSettings(EditAll(middle, tail), node);
    EditConcat(existing, head, tail);
    EditConcat(existing, head + tail, SettingsOps(node));
  }

  // ---- One chunk ----

  ghost predicate Replaced(node: Node, existing: Option<Node>) {
    existing.Some? && !InPlace(node, existing)
  }

  ghost predicate SameNames(a: seq<Node>, b: seq<Node>) {
    |a| == |b| && forall i | 0 <= i < |a| :: a[i].name == b[i].name
  }

  ghost predicate ChunkDone(before: Workflow, after: Workflow, rebuilt: Node, replaced: bool) {
    && UniqueNames(after.nodes)
    && (forall name :: Find(after.nodes, name) == if name == rebuilt.name then Some(rebuilt) else Find(before.nodes, name))
    && (Find(before.nodes, rebuilt.name).Some? && !replaced ==> SameNames(before.nodes, after.nodes))
    && after.connections == (if replaced then WithoutName(before.connections, rebuilt.name) else before.connections)
    && after.settings == before.settings && after.description == before.description
  }

  lemma UpdateInPlace(w: Workflow, node: Node, parameters: map<string, Json>, credentials: Credentials)
    requires UniqueNames(w.nodes) && InPlace(node, Find(w.nodes, node.name))
    ensures var existing := Find(w.nodes, node.name).value;
            var after := w.(nodes := w.nodes[IndexOf(w.nodes, node.name) := Updated(existing, node, parameters, credentials)]);
            ApplyAll(w, UpdateOps(node, existing, parameters, credentials) + SettingsOps(node)) == Done(after)
            && ChunkDone(w, after, Updated(existing, node, parameters, credentials), false)
  {
    hide UpdateOps, SettingsOps, ApplyAll, EditAll;
    var existing := Find(w.nodes, node.name).value;
    var i := IndexOf(w.nodes, node.name);
    EditUpdates(existing, node, parameters, credentials);
    ApplyEdits(w, UpdateOps(node, existing, parameters, credentials) + SettingsOps(node), node.name);
    var nodes := w.nodes[i := Updated(existing, node, parameters, credentials)];
    forall name ensures Find(nodes, name) == if name == node.name then Some(nodes[i]) else Find(w.nodes, name) {
      SameNamesSameIndex(w.nodes, nodes, name);
    }
  }

  lemma AddAfresh(w: Workflow, made: Node, node: Node)
    requires UniqueNames(w.nodes) && Find(w.nodes, made.name).None?
    requires made.name == node.name && made.settings == map[]
    ensures var added := made.(settings := Restrict(node.settings, NODE_SETTING_KEYS));
            var after := w.(nodes := w.nodes + [added]);
            ApplyAll(w, [AddNode(made)] + SettingsOps(node)) == Done(after) && ChunkDone(w, after, added, false)
  {
    hide SettingsOps, EditAll;
    var added := made.(settings := Restrict(node.settings, NODE_SETTING_KEYS));
    var next := w.(nodes := w.nodes + [made]);
    FindsSome(w.nodes, made.name);
    assert forall n | n in w.nodes :: n.name != made.name;
    FindAppended(w.nodes, made, made.name);
    forall name ensures UniqueNames(w.nodes + [added])
      ensures Find(w.nodes + [added], name) == if name == added.name then Some(added) else Find(w.nodes, name) {
      FindAppended(w.nodes, added, name);
    }
    assert IndexOf(next.nodes, made.name) == |w.nodes|;
    EditSettings(made, node);
    ApplyEdits(next, SettingsOps(node), made.name);
    assert map[] + Restrict(node.settings, NODE_SETTING_KEYS) == Restrict(node.settings, NODE_SETTING_KEYS);
    assert next.nodes[|w.nodes| := added] == w.nodes + [added];
    ApplyConcat(w, [AddNode(made)], SettingsOps(node));
    assert ApplyAll(w, [AddNode(made)]) == Done(next) by { assert ApplyAll(next, []) == Done(next); }
  }

  lemma ChunkRuns(w: Workflow, node: Node, existing: Option<Node>, parameters: map<string, Json>, credentials: Credentials)
    requires UniqueNames(w.nodes) && NoNullLanes(w.connections)
    requires Find(w.nodes, node.name) == existing
    ensures var out := ApplyAll(w, NodeChunk(node, existing, parameters, credentials));
            out.Done?
            && ChunkDone(w, out.workflow, Rebuilt(node, existing, parameters, credentials), Replaced(node, existing))
  {
    hide UpdateOps, SettingsOps, FreshNode, Updated, Restrict, Find, WithoutNode, WithoutName, NullLaneBeside, NoNullLanes;
    assert existing.Some? ==> existing.value.name == node.name by { FindsSome(w.nodes, node.name); }
    if InPlace(node, existing) {
      UpdateInPlace(w, node, parameters, credentials);
    } else {
      var made := FreshNode(node, parameters, credentials);
      FreshIs(node, parameters, credentials);
      if existing.None? {
        AddAfresh(w, made, node);
        assert [] + [AddNode(made)] + SettingsOps(node) == [AddNode(made)] + SettingsOps(node);
      } else {
        RemoveRuns(w, node.name);
        var next := ApplyOp(w, RemoveNode(node.name)).workflow;
        AddAfresh(next, made, node);
        var ops := [RemoveNode(node.name)] + [AddNode(made)] + SettingsOps(node);
        assert ops[1..] == [AddNode(made)] + SettingsOps(node);
      }
    }
  }

  lemma RemoveRuns(w: Workflow, name: string)
    requires UniqueNames(w.nodes) && NoNullLanes(w.connections)
    ensures var out := ApplyOp(w, RemoveNode(name));
            out == Done(w.(nodes := WithoutNode(w.nodes, name), connections := WithoutName(w.connections, name)))
            && UniqueNames(out.workflow.nodes) && NoNullLanes(out.workflow.connections)
    ensures forall other :: Find(WithoutNode(w.nodes, name), other)
                            == if other == name then None else Find(w.nodes, other)
  {
    WithoutNameKeepsLanes(w.connections, name);
    WithoutKeepsUnique(w.nodes, name);
    forall other ensures Find(WithoutNode(w.nodes, name), other) == if other == name then None else Find(w.nodes, other) {
      FindWithout(w.nodes, name, other);
    }
  }

  lemma FreshIs(node: Node, parameters: map<string, Json>, credentials: Credentials)
    ensures FreshNode(node, parameters, credentials).name == node.name
    ensures FreshNode(node, parameters, credentials).settings == map[]
  {
  }

  // ---- The node part ----

  /** The edges that outlive the removal of the nodes named in `gone`. */
  function Outside(source: string, gone: set<string>): Edge -> bool {
    (e: Edge) => source !in gone && e.node !in gone
  }

  ghost predicate LanesOutside(before: Connections, after: Connections, gone: set<string>) {
    forall key :: LaneAt(after, key) == Keep(LaneAt(before, key), Outside(key.source, gone))
  }

  lemma NoneGone(connections: Connections)
    ensures LanesOutside(connections, connections, {})
  {
    forall key ensures LaneAt(connections, key) == Keep(LaneAt(connections, key), Outside(key.source, {})) {
      KeepAll(LaneAt(connections, key), Outside(key.source, {}));
    }
  }

  lemma OneGone(connections: Connections, name: string)
    ensures LanesOutside(connections, WithoutName(connections, name), {name})
  {
    forall key ensures LaneAt(WithoutName(connections, name), key)
                    == Keep(LaneAt(connections, key), Outside(key.source, {name})) {
      WithoutNameAt(connections, name, key);
      if key.source == name {
        KeepNone(LaneAt(connections, key), Outside(key.source, {name}));
      } else {
        KeepSame(LaneAt(connections, key), (e: Edge) => e.node != name, Outside(key.source, {name}));
      }
    }
  }

  lemma MoreGone(a: Connections, b: Connections, c: Connections, first: set<string>, second: set<string>)
    requires LanesOutside(a, b, first) && LanesOutside(b, c, second)
    ensures LanesOutside(a, c, first + second)
  {
    forall key ensures LaneAt(c, key) == Keep(LaneAt(a, key), Outside(key.source, first + second)) {
      KeepKeep(LaneAt(a, key), Outside(key.source, first), Outside(key.source, second),
               Outside(key.source, first + second));
    }
  }

  /** Names whose node is removed and added again, because its type changes. */
  function Retyped(source: seq<Node>, target: map<string, Node>): set<string> {
    set node | node in source && node.name in target && target[node.name].kind != node.kind :: node.name
  }

  lemma RetypedSplit(source: seq<Node>, target: map<string, Node>)
    requires source != []
    ensures Retyped(source, target)
         == (if Replaced(source[0], NodeAt(target, source[0].name)) then {source[0].name} else {})
            + Retyped(source[1..], target)
    ensures NamesOf(source) == {source[0].name} + NamesOf(source[1..])
  {
    assert forall n :: n in source <==> n == source[0] || n in source[1..];
  }

  lemma OverlaySplit(source: seq<Node>, i: nat, overlay: Overlay)
    requires i < |source|
    ensures OverlayAt(source[1..], i, RestOfOverlay(source[0], overlay)) == OverlayAt(source, i + 1, overlay)
  {
    forall key ensures TakenBefore(source, i + 1, key) <==> WantsFile(source[0], key) || TakenBefore(source[1..], i, key) {
      TakenSplit(source, i, key);
    }
    hide OverlayKey, TakenBefore;
  }

  lemma TakenSplit(source: seq<Node>, i: nat, key: string)
    requires i < |source|
    ensures TakenBefore(source, i + 1, key) <==> WantsFile(source[0], key) || TakenBefore(source[1..], i, key)
  {
    hide WantsFile;
    if j :| 0 <= j < i + 1 && WantsFile(source[j], key) {
      if j > 0 { assert source[1..][j - 1] == source[j]; }
    }
    if j :| 0 <= j < i && WantsFile(source[1..][j], key) {
      assert source[j + 1] == source[1..][j];
    }
  }

  ghost predicate NodesDone(before: Workflow, after: Workflow, source: seq<Node>, target: map<string, Node>,
                            maps: Maps, overlay: Overlay) {
    && UniqueNames(after.nodes)
    && NoNullLanes(after.connections)
    && (forall i | 0 <= i < |source| ::
          Find(after.nodes, source[i].name) == Some(RebuiltNode(source, i, target, maps, overlay)))
    && (forall name | name !in NamesOf(source) :: Find(after.nodes, name) == Find(before.nodes, name))
    && ((forall node | node in source :: InPlace(node, NodeAt(target, node.name)))
        ==> SameNames(before.nodes, after.nodes))
    && LanesOutside(before.connections, after.connections, Retyped(source, target))
    && after.settings == before.settings && after.description == before.description
  }

  /** After the head's chunk the rest of the list finds what it found before. */
  lemma RestIsReady(w: Workflow, next: Workflow, source: seq<Node>, target: map<string, Node>, rebuilt: Node, replaced: bool)
    requires source != [] && UniqueNames(source)
    requires forall node | node in source :: Find(w.nodes, node.name) == NodeAt(target, node.name)
    requires ChunkDone(w, next, rebuilt, replaced) && rebuilt.name == source[0].name
    ensures UniqueNames(source[1..]) && UniqueNames(next.nodes)
    ensures forall node | node in source[1..] :: Find(next.nodes, node.name) == NodeAt(target, node.name)
  {
    hide Find;
    assert forall other | other in source[1..] :: other in source && other.name != source[0].name;
  }

  lemma {:induction false} NodeOpsRun(w: Workflow, source: seq<Node>, target: map<string, Node>, maps: Maps, overlay: Overlay)
    requires UniqueNames(source) && UniqueNames(w.nodes) && NoNullLanes(w.connections)
    requires forall node | node in source :: Find(w.nodes, node.name) == NodeAt(target, node.name)
    requires forall name | name in target :: target[name].name == name
    ensures var out := ApplyAll(w, NodeOps(source, target, maps, overlay));
            out.Done? && NodesDone(w, out.workflow, source, target, maps, overlay)
    decreases |source|
  {
    if source == [] {
      assert Retyped(source, target) == {};
      NoneGone(w.connections);
      hide UniqueNames, NoNullLanes, LanesOutside, Find;
    } else {
      var node, rest, left := source[0], source[1..], RestOfOverlay(source[0], overlay);
      var existing := NodeAt(target, node.name);
      var parameters := WantedParameters(node, maps, overlay);
      var credentials := MapCredentials(node.credentials, maps);
      var chunk := NodeChunk(node, existing, parameters, credentials);
      var rebuilt := Rebuilt(node, existing, parameters, credentials);
      assert node in source && rebuilt.name == node.name;
      hide NodeChunk, WantedParameters, RestOfOverlay, MapCredentials, LanesOutside, NoNullLanes, Find, RebuiltNode, Retyped,
           HeadDone, Rebuilt, NodesDone, ChunkDone, UniqueNames, Replaced, InPlace;
      ChunkRuns(w, node, existing, parameters, credentials);
      var next := ApplyAll(w, chunk).workflow;
      HeadIsDone(w, next, source, target, maps, overlay);
      RestIsReady(w, next, source, target, rebuilt, Replaced(node, existing));
      NodeOpsRun(next, rest, target, maps, left);
      var after := ApplyAll(next, NodeOps(rest, target, maps, left)).workflow;
      ApplyConcat(w, chunk, NodeOps(rest, target, maps, left));
      NodesStep(w, next, after, source, target, maps, overlay);
    }
  }

  lemma ChunkLanes(before: Workflow, after: Workflow, rebuilt: Node, replaced: bool)
    requires NoNullLanes(before.connections) && ChunkDone(before, after, rebuilt, replaced)
    ensures NoNullLanes(after.connections)
    ensures LanesOutside(before.connections, after.connections, if replaced then {rebuilt.name} else {})
  {
    if replaced {
      WithoutNameKeepsLanes(before.connections, rebuilt.name);
      OneGone(before.connections, rebuilt.name);
    } else {
      NoneGone(before.connections);
    }
  }

  lemma HeadIsDone(before: Workflow, next: Workflow, source: seq<Node>, target: map<string, Node>, maps: Maps,
                   overlay: Overlay)
    requires source != [] && NoNullLanes(before.connections)
    requires forall name | name in target :: target[name].name == name
    requires Find(before.nodes, source[0].name) == NodeAt(target, source[0].name)
    requires var existing := NodeAt(target, source[0].name);
             ChunkDone(before, next, Rebuilt(source[0], existing, WantedParameters(source[0], maps, overlay),
                                             MapCredentials(source[0].credentials, maps)), Replaced(source[0], existing))
    ensures NoNullLanes(next.connections) && HeadDone(before, next, source, target, maps, overlay)
  {
    hide ChunkDone, Replaced, WantedParameters, MapCredentials, OverlayAt, NoNullLanes, LanesOutside, Updated, Added;
    OverlayUntouched(source, overlay);
    ChunkLanes(before, next, RebuiltNode(source, 0, target, maps, overlay), Replaced(source[0], NodeAt(target, source[0].name)));
  }

  lemma OverlayUntouched(source: seq<Node>, overlay: Overlay)
    requires source != []
    ensures OverlayAt(source, 0, overlay) == overlay
  {
  }

  /** The head of the list has been rebuilt, the rest is done after it. */
  ghost predicate HeadDone(before: Workflow, next: Workflow, source: seq<Node>, target: map<string, Node>, maps: Maps,
                           overlay: Overlay)
    requires source != []
  {
    var rebuilt := RebuiltNode(source, 0, target, maps, overlay);
    var replaced := Replaced(source[0], NodeAt(target, source[0].name));
    Find(before.nodes, source[0].name) == NodeAt(target, source[0].name)
    && rebuilt.name == source[0].name && ChunkDone(before, next, rebuilt, replaced)
    && LanesOutside(before.connections, next.connections, if replaced then {source[0].name} else {})
  }

  lemma NodesStepFinds(before: Workflow, next: Workflow, after: Workflow, source: seq<Node>, target: map<string, Node>,
                       maps: Maps, overlay: Overlay)
    requires source != [] && UniqueNames(source) && HeadDone(before, next, source, target, maps, overlay)
    requires NodesDone(next, after, source[1..], target, maps, RestOfOverlay(source[0], overlay))
    ensures forall i | 0 <= i < |source| ::
              Find(after.nodes, source[i].name) == Some(RebuiltNode(source, i, target, maps, overlay))
    ensures forall name | name !in NamesOf(source) :: Find(after.nodes, name) == Find(before.nodes, name)
  {
    HeadNotInRest(source);
    hide RestOfOverlay, RebuiltNode, NoNullLanes, LanesOutside, Find, UniqueNames, Retyped, SameNames, InPlace, WithoutName;
    assert NamesOf(source) == {source[0].name} + NamesOf(source[1..]) by { RetypedSplit(source, target); }
    forall i | 0 <= i < |source|
      ensures Find(after.nodes, source[i].name) == Some(RebuiltNode(source, i, target, maps, overlay)) {
      if i > 0 {
        RebuiltInRest(source, i, target, maps, overlay);
        assert source[1..][i - 1] == source[i];
      }
    }
  }

  lemma NodesStepLanes(before: Connections, next: Connections, after: Connections, source: seq<Node>, target: map<string, Node>)
    requires source != []
    requires LanesOutside(before, next, if Replaced(source[0], NodeAt(target, source[0].name)) then {source[0].name} else {})
    requires LanesOutside(next, after, Retyped(source[1..], target))
    ensures LanesOutside(before, after, Retyped(source, target))
  {
    RetypedSplit(source, target);
    hide Retyped, LanesOutside, Replaced;
    MoreGone(before, next, after, if Replaced(source[0], NodeAt(target, source[0].name)) then {source[0].name} else {},
             Retyped(source[1..], target));
  }

  lemma NodesStepNames(before: Workflow, next: Workflow, after: Workflow, source: seq<Node>, target: map<string, Node>,
                       maps: Maps, overlay: Overlay)
    requires source != [] && HeadDone(before, next, source, target, maps, overlay)
    requires NodesDone(next, after, source[1..], target, maps, RestOfOverlay(source[0], overlay))
    ensures (forall node | node in source :: InPlace(node, NodeAt(target, node.name))) ==> SameNames(before.nodes, after.nodes)
  {
    if forall node | node in source :: InPlace(node, NodeAt(target, node.name)) {
      assert source[0] in source && forall node | node in source[1..] :: node in source;
      hide RestOfOverlay, RebuiltNode, NoNullLanes, LanesOutside, Find, UniqueNames, WithoutName, NamesOf, Retyped;
    }
  }

  lemma NodesStep(before: Workflow, next: Workflow, after: Workflow, source: seq<Node>, target: map<string, Node>,
                  maps: Maps, overlay: Overlay)
    requires source != [] && UniqueNames(source) && HeadDone(before, next, source, target, maps, overlay)
    requires NodesDone(next, after, source[1..], target, maps, RestOfOverlay(source[0], overlay))
    ensures NodesDone(before, after, source, target, maps, overlay)
  {
    NodesStepFinds(before, next, after, source, target, maps, overlay);
    NodesStepLanes(before.connections, next.connections, after.connections, source, target);
    NodesStepNames(before, next, after, source, target, maps, overlay);
    hide RestOfOverlay, RebuiltNode, NoNullLanes, LanesOutside, Find, UniqueNames, WithoutName, NamesOf, Retyped, SameNames,
         InPlace, NodeAt;
  }

  lemma RebuiltInRest(source: seq<Node>, i: nat, target: map<string, Node>, maps: Maps, overlay: Overlay)
    requires 0 < i < |source|
    ensures RebuiltNode(source[1..], i - 1, target, maps, RestOfOverlay(source[0], overlay))
         == RebuiltNode(source, i, target, maps, overlay)
  {
    hide WantedParameters, RestOfOverlay, OverlayAt, Rebuilt, MapCredentials;
    OverlaySplit(source, i - 1, overlay);
  }

  lemma HeadNotInRest(source: seq<Node>)
    requires source != [] && UniqueNames(source)
    ensures source[0].name !in NamesOf(source[1..])
  {
  }
}
