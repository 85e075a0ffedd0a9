/**
 What repointing does to a workflow's references, and what doing it again finds.

 A reference is a sub-workflow id, a credential or a data table field. The first part says that
 every reference gets exactly one line in exactly one of the three reports, in the order of the
 nodes; the second gives the second report line by line from the first; the last puts the two
 together: when a second repoint is the identity, what it still reports, and that every change
 it reported the first time wrote the id of its map.
 */
module RepointGuarantees {
  import opened Prelude
  import opened JsonValues
  import opened Strings
  import opened Repoint

  /** Target ids are present and carry no surrounding blanks, so a reference reads back as written. */
  ghost predicate ReadableIds(maps: IdMaps) {
    && (forall k | k in maps.workflows :: maps.workflows[k] != "" && Strip(maps.workflows[k], Blank) == maps.workflows[k])
    && (forall k | k in maps.tables :: maps.tables[k].id != "" && Strip(maps.tables[k].id, Blank) == maps.tables[k].id)
    && (forall k | k in maps.credentials :: maps.credentials[k].id != "")
  }

  predicate IsSourceId(place: Place, id: string, maps: IdMaps) {
    match place
    case CredentialOf(_, _) => id in maps.credentials
    case TableOf(_, _) => id in maps.tables
    case _ => id in maps.workflows
  }

  function TargetOf(place: Place, id: string, maps: IdMaps): string
    requires IsSourceId(place, id, maps)
  {
    match place
    case CredentialOf(_, _) => maps.credentials[id].id
    case TableOf(_, _) => maps.tables[id].id
    case _ => maps.workflows[id]
  }

  /** What a second run says of a reference: a change is done, unless its target is itself a source. */
  function Again(line: Line, maps: IdMaps): Line {
    if !line.Change? then line
    else if IsSourceId(line.place, line.to, maps)
    then Change(line.place, line.to, TargetOf(line.place, line.to, maps))
    else Already(line.place, line.to)
  }

  function AgainAll(lines: seq<Line>, maps: IdMaps): seq<Line> {
    if lines == [] then [] else [Again(lines[0], maps)] + AgainAll(lines[1..], maps)
  }

  lemma {:induction false} AgainConcat(a: seq<Line>, b: seq<Line>, maps: IdMaps)
    ensures AgainAll(a + b, maps) == AgainAll(a, maps) + AgainAll(b, maps)
  {
    if a == [] {
      assert a + b == b;
    } else {
      assert (a + b)[1..] == a[1..] + b;
      AgainConcat(a[1..], b, maps);
    }
  }

  lemma {:induction false} AgainAt(lines: seq<Line>, maps: IdMaps)
    ensures |AgainAll(lines, maps)| == |lines|
    ensures forall i | 0 <= i < |lines| :: AgainAll(lines, maps)[i] == Again(lines[i], maps)
  {
    if lines != [] { AgainAt(lines[1..], maps); }
  }

  // ---- One reference twice ----

  lemma SetRefIdReads(value: Json, before: string, after: string, name: Option<string>)
    ensures RefId(SetRefId(value, before, after, name)) == Strip(after, Blank)
    ensures TravelsByName(SetRefId(value, before, after, name)) == TravelsByName(value)
  {
    hide Strip;
  }

  lemma SubAgain(node: string, value: Json, maps: IdMaps)
    requires ReadableIds(maps)
    ensures SubSlot(node, SubSlot(node, value, maps).0, maps).1 == Again(SubSlot(node, value, maps).1, maps)
  {
    var ref := RefId(value);
    if ref != "" && ref in maps.workflows {
      assert maps.workflows[ref] in maps.workflows.Values;
      SetRefIdReads(value, ref, maps.workflows[ref], Lookup(maps.names, ref));
    }
  }

  lemma TableAgain(node: string, field: string, value: Json, maps: IdMaps)
    requires ReadableIds(maps)
    ensures TableSlot(node, field, TableSlot(node, field, value, maps).0, maps).1
         == AgainAll(TableSlot(node, field, value, maps).1, maps)
  {
    var ref := RefId(value);
    hide RefId, TravelsByName;
    AgainOne(TableSlot(node, field, value, maps).1, maps);
    if ref != "" && !TravelsByName(value) && ref in maps.tables {
      assert maps.tables[ref].id in TargetIds(maps.tables);
      SetRefIdReads(value, ref, maps.tables[ref].id, maps.tables[ref].name);
    }
  }

  lemma AgainOne(lines: seq<Line>, maps: IdMaps)
    requires |lines| <= 1
    ensures AgainAll(lines, maps) == if lines == [] then [] else [Again(lines[0], maps)]
  {
  }

  lemma CredentialAgain(node: string, kind: string, value: Json, maps: IdMaps)
    requires ReadableIds(maps)
    ensures CredentialSlot(node, kind, CredentialSlot(node, kind, value, maps).0, maps).1
         == AgainAll(CredentialSlot(node, kind, value, maps).1, maps)
  {
    var slot := CredentialSlot(node, kind, value, maps);
    AgainOne(slot.1, maps);
    if slot.1 != [] && slot.1[0].Change? {
      assert slot.1[0].to in TargetIds(maps.credentials);
      assert Member(slot.0.fields, "id") == JStr(slot.1[0].to);
    }
  }

  lemma ErrorAgain(value: Json, maps: IdMaps)
    requires ReadableIds(maps)
    ensures ErrorSlot(ErrorSlot(value, maps).0, maps).1 == AgainAll(ErrorSlot(value, maps).1, maps)
  {
    var slot := ErrorSlot(value, maps);
    AgainOne(slot.1, maps);
    if slot.1 != [] && slot.1[0].Change? {
      assert slot.1[0].to in maps.workflows.Values;
    }
  }

  // ---- One node twice ----

  lemma {:induction false} CredentialsAgain(node: string, credentials: seq<(string, Json)>, maps: IdMaps)
    requires ReadableIds(maps)
    ensures CredentialPart(node, CredentialPart(node, credentials, maps).0, maps).1
         == AgainAll(CredentialPart(node, credentials, maps).1, maps)
  {
    hide ReadableIds, CredentialSlot;
    if credentials != [] {
      var slot := CredentialSlot(node, credentials[0].0, credentials[0].1, maps);
      var rest := CredentialPart(node, credentials[1..], maps);
      CredentialAgain(node, credentials[0].0, credentials[0].1, maps);
      CredentialsAgain(node, credentials[1..], maps);
      AgainConcat(slot.1, rest.1, maps);
      assert CredentialPart(node, credentials, maps).0[1..] == rest.0;
    }
  }

  ghost predicate Distinct(fields: seq<string>) {
    forall i, j | 0 <= i < j < |fields| :: fields[i] != fields[j]
  }

  lemma {:induction false} TablesKeep(node: string, parameters: map<string, Json>, fields: seq<string>, maps: IdMaps, key: string)
    requires key !in fields
    ensures Member(TablePart(node, parameters, fields, maps).0, key) == Member(parameters, key)
    decreases |fields|
  {
    hide TableSlot;
    if fields != [] {
      TablesKeep(node, FieldStep(node, parameters, fields[0], maps).0, fields[1..], maps, key);
    }
  }

  lemma {:induction false} TablesAgain(node: string, before: map<string, Json>, after: map<string, Json>,
                                      fields: seq<string>, maps: IdMaps)
    requires ReadableIds(maps) && Distinct(fields)
    requires forall f | f in fields :: Member(after, f) == Member(TablePart(node, before, fields, maps).0, f)
    ensures TablePart(node, after, fields, maps).1 == AgainAll(TablePart(node, before, fields, maps).1, maps)
    decreases |fields|
  {
    hide ReadableIds;
    if fields != [] {
      var field, rest := fields[0], fields[1..];
      var one := FieldStep(node, before, field, maps);
      var two := FieldStep(node, after, field, maps);
      TablesKeep(node, one.0, rest, maps, field);
      assert field in fields;
      assert Member(after, field) == Member(one.0, field);
      TableAgain(node, field, Member(before, field), maps);
      FieldStepReads(node, before, field, maps);
      hide FieldStep;
      assert two.1 == AgainAll(one.1, maps) by { FieldStepLine(node, after, field, maps); FieldStepLine(node, before, field, maps); }
      forall f | f in rest ensures Member(two.0, f) == Member(TablePart(node, one.0, rest, maps).0, f) {
        assert f in fields && f != field;
        FieldStepKeeps(node, after, field, maps, f);
      }
      TablesAgain(node, one.0, two.0, rest, maps);
      AgainConcat(one.1, TablePart(node, one.0, rest, maps).1, maps);
    }
  }

  lemma FieldStepReads(node: string, parameters: map<string, Json>, field: string, maps: IdMaps)
    ensures Member(FieldStep(node, parameters, field, maps).0, field)
         == TableSlot(node, field, Member(parameters, field), maps).0
  {
  }

  lemma FieldStepLine(node: string, parameters: map<string, Json>, field: string, maps: IdMaps)
    ensures FieldStep(node, parameters, field, maps).1 == TableSlot(node, field, Member(parameters, field), maps).1
  {
  }

  lemma FieldStepKeeps(node: string, parameters: map<string, Json>, field: string, maps: IdMaps, key: string)
    requires key != field
    ensures Member(FieldStep(node, parameters, field, maps).0, key) == Member(parameters, key)
  {
    hide TableSlot;
  }

  lemma FieldsAreDistinct(kind: string)
    ensures Distinct(TableFields(kind)) && "workflowId" !in TableFields(kind)
  {
    hide Has;
    assert "dataTableId"[0] != "tableId"[0] && "dataTableId"[0] != "table"[0] && |"tableId"| != |"table"|;
    assert "workflowId"[0] != "dataTableId"[0] && "workflowId"[0] != "tableId"[0] && "workflowId"[0] != "table"[0];
  }

  lemma SubPartKeeps(node: Node, maps: IdMaps, key: string)
    requires key != "workflowId"
    ensures Member(SubPart(node, maps).0, key) == Member(node.parameters, key)
  {
    hide SubSlot, IsSubWorkflowNode;
  }

  lemma SubPartAgain(node: Node, again: Node, maps: IdMaps)
    requires ReadableIds(maps) && again.name == node.name && again.kind == node.kind
    requires Member(again.parameters, "workflowId") == Member(SubPart(node, maps).0, "workflowId")
    ensures SubPart(again, maps).1 == AgainAll(SubPart(node, maps).1, maps)
  {
    hide IsSubWorkflowNode;
    AgainOne(SubPart(node, maps).1, maps);
    if IsSubWorkflowNode(node.kind) {
      SubAgain(node.name, Member(node.parameters, "workflowId"), maps);
    }
  }

  lemma NodeAgain(node: Node, maps: IdMaps)
    requires ReadableIds(maps)
    ensures NodePart(NodePart(node, maps).0, maps).1 == AgainAll(NodePart(node, maps).1, maps)
  {
    var once := NodePart(node, maps).0;
    var sub, fields := SubPart(node, maps), TableFields(node.kind);
    var credentials, tables := CredentialPart(node.name, node.credentials, maps), TablePart(node.name, sub.0, fields, maps);
    hide ReadableIds, SubPart, CredentialPart, TablePart, TableFields;
    FieldsAreDistinct(node.kind);
    TablesKeep(node.name, sub.0, fields, maps, "workflowId");
    SubPartAgain(node, once, maps);
    CredentialsAgain(node.name, node.credentials, maps);
    forall f | f in fields ensures Member(SubPart(once, maps).0, f) == Member(tables.0, f) {
      SubPartKeeps(once, maps, f);
    }
    TablesAgain(node.name, sub.0, SubPart(once, maps).0, fields, maps);
    AgainConcat(sub.1, credentials.1, maps);
    AgainConcat(sub.1 + credentials.1, tables.1, maps);
  }

  lemma {:induction false} NodesAgain(nodes: seq<Node>, maps: IdMaps)
    requires ReadableIds(maps)
    ensures NodesPart(NodesPart(nodes, maps).0, maps).1 == AgainAll(NodesPart(nodes, maps).1, maps)
  {
    hide ReadableIds, NodePart;
    if nodes != [] {
      NodeAgain(nodes[0], maps);
      NodesAgain(nodes[1..], maps);
      AgainConcat(NodePart(nodes[0], maps).1, NodesPart(nodes[1..], maps).1, maps);
      assert NodesPart(nodes, maps).0[1..] == NodesPart(nodes[1..], maps).0;
    }
  }

  /**
   The second report, line by line: what dangled dangles, what was done is done, and a change
   is done, or is changed once more exactly when its target is a source id.
   */
  lemma SecondReport(workflow: Workflow, maps: IdMaps)
    requires ReadableIds(maps)
    ensures Repointed(Repointed(workflow, maps).0, maps).1 == AgainAll(Repointed(workflow, maps).1, maps)
  {
    hide ReadableIds, NodesPart, ErrorSlot;
    NodesAgain(workflow.nodes, maps);
    ErrorAgain(workflow.errorWorkflow, maps);
    AgainConcat(NodesPart(workflow.nodes, maps).1, ErrorSlot(workflow.errorWorkflow, maps).1, maps);
  }

  // ---- No change, no difference ----

  ghost predicate NoChange(lines: seq<Line>) {
    forall l | l in lines :: !l.Change?
  }

  lemma {:induction false} CredentialsUnchanged(node: string, credentials: seq<(string, Json)>, maps: IdMaps)
    requires NoChange(CredentialPart(node, credentials, maps).1)
    ensures CredentialPart(node, credentials, maps).0 == credentials
  {
    if credentials != [] {
      var slot := CredentialSlot(node, credentials[0].0, credentials[0].1, maps);
      var rest := CredentialPart(node, credentials[1..], maps);
      assert forall l | l in slot.1 :: l in slot.1 + rest.1;
      assert forall l | l in rest.1 :: l in slot.1 + rest.1;
      CredentialsUnchanged(node, credentials[1..], maps);
      assert slot.0 == credentials[0].1 by {
        if slot.1 != [] { assert slot.1[0] in slot.1; }
      }
    }
  }

  lemma {:induction false} TablesUnchanged(node: string, parameters: map<string, Json>, fields: seq<string>, maps: IdMaps)
    requires NoChange(TablePart(node, parameters, fields, maps).1)
    ensures TablePart(node, parameters, fields, maps).0 == parameters
    decreases |fields|
  {
    hide TableSlot;
    if fields != [] {
      var step := FieldStep(node, parameters, fields[0], maps);
      var rest := TablePart(node, step.0, fields[1..], maps);
      assert forall l | l in step.1 :: l in step.1 + rest.1;
      assert forall l | l in rest.1 :: l in step.1 + rest.1;
      TablesUnchanged(node, step.0, fields[1..], maps);
      assert step.0 == parameters by {
        if step.1 != [] { assert step.1[0] in step.1; }
      }
    }
  }

  lemma {:induction false} NodesUnchanged(nodes: seq<Node>, maps: IdMaps)
    requires NoChange(NodesPart(nodes, maps).1)
    ensures NodesPart(nodes, maps).0 == nodes
  {
    if nodes != [] {
      var first, rest := NodePart(nodes[0], maps), NodesPart(nodes[1..], maps);
      assert forall l | l in first.1 :: l in first.1 + rest.1;
      assert forall l | l in rest.1 :: l in first.1 + rest.1;
      NodeUnchanged(nodes[0], maps);
      hide NodePart;
      NodesUnchanged(nodes[1..], maps);
    }
  }

  lemma NodeUnchanged(node: Node, maps: IdMaps)
    requires NoChange(NodePart(node, maps).1)
    ensures NodePart(node, maps).0 == node
  {
    var sub := SubPart(node, maps);
    var credentials := CredentialPart(node.name, node.credentials, maps);
    var tables := TablePart(node.name, sub.0, TableFields(node.kind), maps);
    var lines := sub.1 + credentials.1 + tables.1;
    assert forall l | l in sub.1 :: l in lines;
    assert forall l | l in credentials.1 :: l in lines;
    assert forall l | l in tables.1 :: l in lines;
    hide IsSubWorkflowNode, SubSlot, CredentialPart, TablePart;
    assert sub.0 == node.parameters by {
      if sub.1 != [] { assert sub.1[0] in sub.1; }
    }
    CredentialsUnchanged(node.name, node.credentials, maps);
    TablesUnchanged(node.name, sub.0, TableFields(node.kind), maps);
  }

  lemma RepointUnchanged(workflow: Workflow, maps: IdMaps)
    requires NoChange(Repointed(workflow, maps).1)
    ensures Repointed(workflow, maps).0 == workflow
  {
    var nodes, error := NodesPart(workflow.nodes, maps), ErrorSlot(workflow.errorWorkflow, maps);
    assert forall l | l in nodes.1 :: l in nodes.1 + error.1;
    assert forall l | l in error.1 :: l in nodes.1 + error.1;
    NodesUnchanged(workflow.nodes, maps);
    if error.1 != [] { assert error.1[0] in error.1; }
  }

  /** The second repoint changes nothing exactly when no target it wrote is a source id. */
  lemma SettledExactly(workflow: Workflow, maps: IdMaps)
    requires ReadableIds(maps)
    ensures var first := Repointed(workflow, maps);
            var second := Repointed(first.0, maps);
            NoChange(second.1) <==> forall l | l in first.1 && l.Change? :: !IsSourceId(l.place, l.to, maps)
    ensures NoChange(Repointed(Repointed(workflow, maps).0, maps).1)
        ==> Repointed(Repointed(workflow, maps).0, maps).0 == Repointed(workflow, maps).0
  {
    var first := Repointed(workflow, maps);
    var second := Repointed(first.0, maps);
    SecondReport(workflow, maps);
    AgainAt(first.1, maps);
    hide Repointed, ReadableIds;
    if NoChange(second.1) {
      RepointUnchanged(first.0, maps);
      forall l | l in first.1 && l.Change? ensures !IsSourceId(l.place, l.to, maps) {
        var i :| 0 <= i < |first.1| && first.1[i] == l;
        assert second.1[i] in second.1;
      }
    }
    if forall l | l in first.1 && l.Change? :: !IsSourceId(l.place, l.to, maps) {
      forall l | l in second.1 ensures !l.Change? {
        var i :| 0 <= i < |second.1| && second.1[i] == l;
        assert first.1[i] in first.1;
      }
    }
  }

  /** No target id is a source id of the same kind: what LoadMap accepts, and what workflow ids need. */
  ghost predicate Separate(maps: IdMaps) {
    && (forall k | k in maps.workflows :: maps.workflows[k] !in maps.workflows)
    && (forall k | k in maps.tables :: maps.tables[k].id !in maps.tables)
    && (forall k | k in maps.credentials :: maps.credentials[k].id !in maps.credentials)
  }

  /** Every change writes the id its map gives for the reference it found. */
  ghost predicate FollowsMaps(lines: seq<Line>, maps: IdMaps) {
    forall l | l in lines && l.Change? :: IsSourceId(l.place, l.from, maps) && l.to == TargetOf(l.place, l.from, maps)
  }

  lemma FollowsConcat(a: seq<Line>, b: seq<Line>, maps: IdMaps)
    requires FollowsMaps(a, maps) && FollowsMaps(b, maps)
    ensures FollowsMaps(a + b, maps)
  {
  }

  lemma {:induction false} CredentialsFollow(node: string, credentials: seq<(string, Json)>, maps: IdMaps)
    ensures FollowsMaps(CredentialPart(node, credentials, maps).1, maps)
  {
    if credentials != [] {
      CredentialsFollow(node, credentials[1..], maps);
      FollowsConcat(CredentialSlot(node, credentials[0].0, credentials[0].1, maps).1,
                    CredentialPart(node, credentials[1..], maps).1, maps);
    }
  }

  lemma {:induction false} TablesFollow(node: string, parameters: map<string, Json>, fields: seq<string>, maps: IdMaps)
    ensures FollowsMaps(TablePart(node, parameters, fields, maps).1, maps)
    decreases |fields|
  {
    if fields != [] {
      hide RefId, SetRefId, TravelsByName;
      var step := FieldStep(node, parameters, fields[0], maps);
      TablesFollow(node, step.0, fields[1..], maps);
      FollowsConcat(step.1, TablePart(node, step.0, fields[1..], maps).1, maps);
    }
  }

  lemma {:induction false} NodesFollow(nodes: seq<Node>, maps: IdMaps)
    ensures FollowsMaps(NodesPart(nodes, maps).1, maps)
  {
    if nodes != [] {
      var node := nodes[0];
      var sub := SubPart(node, maps);
      assert FollowsMaps(sub.1, maps);
      hide SubPart, FollowsMaps;
      CredentialsFollow(node.name, node.credentials, maps);
      TablesFollow(node.name, sub.0, TableFields(node.kind), maps);
      NodesFollow(nodes[1..], maps);
      FollowsConcat(sub.1, CredentialPart(node.name, node.credentials, maps).1, maps);
      FollowsConcat(sub.1 + CredentialPart(node.name, node.credentials, maps).1,
                    TablePart(node.name, sub.0, TableFields(node.kind), maps).1, maps);
      FollowsConcat(NodePart(node, maps).1, NodesPart(nodes[1..], maps).1, maps);
    }
  }

  lemma ReportFollows(workflow: Workflow, maps: IdMaps)
    ensures FollowsMaps(Repointed(workflow, maps).1, maps)
  {
    NodesFollow(workflow.nodes, maps);
    FollowsConcat(NodesPart(workflow.nodes, maps).1, ErrorSlot(workflow.errorWorkflow, maps).1, maps);
  }

  lemma TargetIsNoSource(place: Place, id: string, maps: IdMaps)
    requires Separate(maps) && IsSourceId(place, id, maps)
    ensures !IsSourceId(place, TargetOf(place, id, maps), maps)
  {
  }

  /** With separate ids a second repoint is a rest: same workflow, same dangling, every change done. */
  lemma SecondRepointRests(workflow: Workflow, maps: IdMaps)
    requires ReadableIds(maps) && Separate(maps)
    ensures var first := Repointed(workflow, maps);
            var second := Repointed(first.0, maps);
            second.0 == first.0
            && |second.1| == |first.1|
            && forall i | 0 <= i < |first.1| ::
                 second.1[i] == if first.1[i].Change? then Already(first.1[i].place, first.1[i].to) else first.1[i]
  {
    var first := Repointed(workflow, maps);
    SecondReport(workflow, maps);
    SettledExactly(workflow, maps);
    ReportFollows(workflow, maps);
    AgainAt(first.1, maps);
    hide Repointed, ReadableIds;
    forall l | l in first.1 && l.Change? ensures !IsSourceId(l.place, l.to, maps) {
      TargetIsNoSource(l.place, l.from, maps);
    }
    hide Separate, FollowsMaps, IsSourceId;
    forall i | 0 <= i < |first.1| ensures first.1[i].Change? ==> Again(first.1[i], maps) == Already(first.1[i].place, first.1[i].to) {
      assert first.1[i] in first.1;
    }
  }

  // ---- Every reference once ----

  function PlacesOf(lines: seq<Line>): seq<Place> {
    if lines == [] then [] else [lines[0].place] + PlacesOf(lines[1..])
  }

  lemma {:induction false} PlacesConcat(a: seq<Line>, b: seq<Line>)
    ensures PlacesOf(a + b) == PlacesOf(a) + PlacesOf(b)
  {
    if a == [] {
      assert a + b == b;
    } else {
      assert (a + b)[1..] == a[1..] + b;
      PlacesConcat(a[1..], b);
    }
  }

  // The references a workflow holds, counted without any map.

  function CredentialPlaces(node: string, credentials: seq<(string, Json)>): seq<Place> {
    if credentials == [] then []
    else (if credentials[0].1.JObj? then [CredentialOf(node, credentials[0].0)] else [])
         + CredentialPlaces(node, credentials[1..])
  }

  function TablePlaces(node: string, parameters: map<string, Json>, fields: seq<string>): seq<Place> {
    if fields == [] then []
    else (if RefId(Member(parameters, fields[0])) != "" then [TableOf(node, fields[0])] else [])
         + TablePlaces(node, parameters, fields[1..])
  }

  function NodePlaces(nodes: seq<Node>): seq<Place> {
    if nodes == [] then []
    else
      var node := nodes[0];
      (if IsSubWorkflowNode(node.kind) then [SubWorkflow(node.name)] else [])
      + CredentialPlaces(node.name, node.credentials)
      + TablePlaces(node.name, node.parameters, TableFields(node.kind))
      + NodePlaces(nodes[1..])
  }

  function References(workflow: Workflow): seq<Place> {
    NodePlaces(workflow.nodes) + (if Falsy(workflow.errorWorkflow) then [] else [ErrorWorkflow])
  }

  lemma {:induction false} CredentialLines(node: string, credentials: seq<(string, Json)>, maps: IdMaps)
    ensures PlacesOf(CredentialPart(node, credentials, maps).1) == CredentialPlaces(node, credentials)
  {
    if credentials != [] {
      CredentialLines(node, credentials[1..], maps);
      PlacesConcat(CredentialSlot(node, credentials[0].0, credentials[0].1, maps).1,
                   CredentialPart(node, credentials[1..], maps).1);
    }
  }

  /** A field step leaves the other fields as they were seen. */
  lemma OtherFieldsSeen(node: string, parameters: map<string, Json>, seen: map<string, Json>, fields: seq<string>, maps: IdMaps)
    requires fields != [] && Distinct(fields) && forall f | f in fields :: Member(parameters, f) == Member(seen, f)
    ensures Distinct(fields[1..])
    ensures forall f | f in fields[1..] :: Member(FieldStep(node, parameters, fields[0], maps).0, f) == Member(seen, f)
  {
    hide FieldStep, Member;
    forall f | f in fields[1..] ensures Member(FieldStep(node, parameters, fields[0], maps).0, f) == Member(seen, f) {
      assert f in fields;
      FieldStepKeeps(node, parameters, fields[0], maps, f);
    }
  }

  /** A field has one line if it holds a reference, and none if not. */
  lemma HeadLine(node: string, parameters: map<string, Json>, field: string, maps: IdMaps)
    ensures PlacesOf(FieldStep(node, parameters, field, maps).1)
         == if RefId(Member(parameters, field)) != "" then [TableOf(node, field)] else []
  {
    FieldStepLine(node, parameters, field, maps);
    hide FieldStep, RefId, SetRefId, TravelsByName, Member;
  }

  lemma {:induction false} TableLines(node: string, parameters: map<string, Json>, seen: map<string, Json>,
                                     fields: seq<string>, maps: IdMaps)
    requires Distinct(fields) && forall f | f in fields :: Member(parameters, f) == Member(seen, f)
    ensures PlacesOf(TablePart(node, parameters, fields, maps).1) == TablePlaces(node, seen, fields)
    decreases |fields|
  {
    if fields == [] { return; }
    assert fields[0] in fields;
    hide FieldStep, RefId, SetRefId, TravelsByName, Member, Distinct, PlacesOf;
    HeadLine(node, parameters, fields[0], maps);
    OtherFieldsSeen(node, parameters, seen, fields, maps);
    var step := FieldStep(node, parameters, fields[0], maps);
    TableLines(node, step.0, seen, fields[1..], maps);
    PlacesConcat(step.1, TablePart(node, step.0, fields[1..], maps).1);
  }

  lemma {:induction false} NodeLines(nodes: seq<Node>, maps: IdMaps)
    ensures PlacesOf(NodesPart(nodes, maps).1) == NodePlaces(nodes)
  {
    if nodes != [] {
      var node := nodes[0];
      var sub := SubPart(node, maps);
      assert PlacesOf(sub.1) == if IsSubWorkflowNode(node.kind) then [SubWorkflow(node.name)] else [];
      forall f | f in TableFields(node.kind) ensures Member(sub.0, f) == Member(node.parameters, f) {
        FieldsAreDistinct(node.kind);
        SubPartKeeps(node, maps, f);
      }
      hide SubPart, IsSubWorkflowNode;
      FieldsAreDistinct(node.kind);
      CredentialLines(node.name, node.credentials, maps);
      TableLines(node.name, sub.0, node.parameters, TableFields(node.kind), maps);
      hide TableFields;
      NodeLines(nodes[1..], maps);
      var credentials := CredentialPart(node.name, node.credentials, maps).1;
      var tables := TablePart(node.name, sub.0, TableFields(node.kind), maps).1;
      PlacesConcat(sub.1, credentials);
      PlacesConcat(sub.1 + credentials, tables);
      PlacesConcat(sub.1 + credentials + tables, NodesPart(nodes[1..], maps).1);
    }
  }

  /** Each reference gets exactly one line, and each line is a change, done or dangling, and no two of them. */
  lemma EveryReferenceOnce(workflow: Workflow, maps: IdMaps)
    ensures PlacesOf(Repointed(workflow, maps).1) == References(workflow)
    ensures forall l | l in Repointed(workflow, maps).1 ::
      (l.Change? && !IsDone(l) && !IsDangling(l)) || (!l.Change? && IsDone(l) != IsDangling(l))
  {
    hide NodesPart, NodePlaces, PyStr;
    NodeLines(workflow.nodes, maps);
    var error := ErrorSlot(workflow.errorWorkflow, maps).1;
    assert PlacesOf(error) == if Falsy(workflow.errorWorkflow) then [] else [ErrorWorkflow];
    PlacesConcat(NodesPart(workflow.nodes, maps).1, error);
    hide PlacesOf, ErrorSlot;
  }
}
