/**
 Repointing the references of one workflow, as `_repoint_workflow` of
 `scripts/n8n_migrate.py` does it, and the reading of an id map by `_load_map`.
 */
module Repoint {
  import opened Prelude
  import opened JsonValues
  import opened Strings

  datatype Target = Target(id: string, name: Option<string>)

  datatype IdMaps = IdMaps(
    workflows: map<string, string>,
    names: map<string, string>,
    credentials: map<string, Target>,
    tables: map<string, Target>)

  datatype Node = Node(name: string, kind: string, parameters: map<string, Json>, credentials: seq<(string, Json)>)

  datatype Workflow = Workflow(nodes: seq<Node>, errorWorkflow: Json)

  // Where a reference sits.
  datatype Place =
    | SubWorkflow(node: string)
    | CredentialOf(node: string, kind: string)
    | TableOf(node: string, field: string)
    | ErrorWorkflow

  // One line of the report.
  datatype Line =
    | Change(place: Place, from: string, to: string)
    | Already(place: Place, at: string)
    | ByName(place: Place, ref: string)
    | Unmapped(place: Place, ref: string)
    | ByHand(place: Place)
    | NoId(place: Place)

  predicate IsChange(line: Line) {
    line.Change?
  }

  predicate IsDone(line: Line) {
    line.Already? || line.ByName?
  }

  predicate IsDangling(line: Line) {
    line.Unmapped? || line.ByHand? || line.NoId?
  }

  function Only(lines: seq<Line>, p: Line -> bool): (kept: seq<Line>)
    ensures forall l :: l in kept <==> l in lines && p(l)
  {
    if lines == [] then [] else (if p(lines[0]) then [lines[0]] else []) + Only(lines[1..], p)
  }

  // ---- References ----

  /** str() of a scalar; lists and objects never serve as ids. */
  function PyStr(value: Json): string {
    match value
    case JNull => "None"
    case JBool(flag) => if flag then "True" else "False"
    case JNum(number) => if number < 0 then "-" + Digits(-number) else Digits(number)
    case JStr(text) => text
    case JArr(_) => "[...]"
    case JObj(_) => "{...}"
  }

  function Member(value: map<string, Json>, key: string): Json {
    if key in value then value[key] else JNull
  }

  predicate Falsy(value: Json) {
    match value
    case JNull => true
    case JBool(flag) => !flag
    case JNum(number) => number == 0
    case JStr(text) => text == ""
    case JArr(items) => items == []
    case JObj(fields) => fields == map[]
  }

  function RefId(value: Json): string {
    match value
    case JStr(text) => Strip(text, Blank)
    case JObj(fields) =>
      var inner := Member(fields, "value");
      if inner.JStr? || inner.JNum? || inner.JBool? then Strip(PyStr(inner), Blank) else ""
    case _ => ""
  }

  function SetRefId(value: Json, before: string, after: string, name: Option<string>): Json {
    if value.JObj? then
      var pointed := value.fields["value" := JStr(after)];
      var named := if name.Some? && name.value != "" && "cachedResultName" in pointed
                   then pointed["cachedResultName" := JStr(name.value)] else pointed;
      var url := Member(named, "cachedResultUrl");
      if url.JStr? && before != "" && EndsWith(url.text, before)
      then JObj(named["cachedResultUrl" := JStr(url.text[..|url.text| - |before|] + after)]) else JObj(named)
    else JStr(after)
  }

  function Lowered(text: string): string {
    seq(|text|, i requires 0 <= i < |text| => Lower(text[i]))
  }

  predicate Has(text: string, part: string) {
    exists i | 0 <= i <= |text| :: StartsWith(text[i..], part)
  }

  predicate IsSubWorkflowNode(kind: string) {
    var lowered := Lowered(kind);
    !EndsWith(lowered, "trigger") && (Has(lowered, "executeworkflow") || Has(lowered, "toolworkflow"))
  }

  function TableFields(kind: string): seq<string> {
    ["dataTableId", "tableId"] + (if Has(Lowered(kind), "datatable") then ["table"] else [])
  }

  function Lookup(names: map<string, string>, key: string): Option<string> {
    if key in names then Some(names[key]) else None
  }

  function TargetIds(targets: map<string, Target>): set<string> {
    set k | k in targets :: targets[k].id
  }

  // ---- One reference: its new value and its line ----

  function SubSlot(node: string, value: Json, maps: IdMaps): (Json, Line) {
    var ref, at := RefId(value), SubWorkflow(node);
    if ref == "" then (value, ByHand(at))
    else if ref in maps.workflows
    then (SetRefId(value, ref, maps.workflows[ref], Lookup(maps.names, ref)), Change(at, ref, maps.workflows[ref]))
    else if ref in maps.workflows.Values then (value, Already(at, ref))
    else (value, Unmapped(at, ref))
  }

  /** A credential that is no object is passed over. */
  function CredentialSlot(node: string, kind: string, value: Json, maps: IdMaps): (Json, seq<Line>) {
    var at := CredentialOf(node, kind);
    if !value.JObj? then (value, [])
    else
      var id := Member(value.fields, "id");
      var ref := if Falsy(id) then "" else PyStr(id);
      if ref == "" then (value, [NoId(at)])
      else if ref in maps.credentials then
        var target := maps.credentials[ref];
        var name := if target.name.Some? && target.name.value != "" then JStr(target.name.value)
                    else if "name" in value.fields then value.fields["name"] else JStr("");
        (JObj(map["id" := JStr(target.id), "name" := name]), [Change(at, ref, target.id)])
      else if ref in TargetIds(maps.credentials) then (value, [Already(at, ref)])
      else (value, [Unmapped(at, ref)])
  }

  predicate TravelsByName(value: Json) {
    value.JObj? && "mode" in value.fields && PyStr(value.fields["mode"]) == "name"
  }

  function TableSlot(node: string, field: string, value: Json, maps: IdMaps): (Json, seq<Line>) {
    var ref, at := RefId(value), TableOf(node, field);
    if ref == "" then (value, [])
    else if TravelsByName(value) then (value, [ByName(at, ref)])
    else if ref in maps.tables
    then (SetRefId(value, ref, maps.tables[ref].id, maps.tables[ref].name), [Change(at, ref, maps.tables[ref].id)])
    else if ref in TargetIds(maps.tables) then (value, [Already(at, ref)])
    else (value, [Unmapped(at, ref)])
  }

  function ErrorSlot(value: Json, maps: IdMaps): (Json, seq<Line>) {
    if Falsy(value) then (value, [])
    else
      var ref := PyStr(value);
      if ref in maps.workflows then (JStr(maps.workflows[ref]), [Change(ErrorWorkflow, ref, maps.workflows[ref])])
      else if ref in maps.workflows.Values then (value, [Already(ErrorWorkflow, ref)])
      else (value, [Unmapped(ErrorWorkflow, ref)])
  }

  // ---- A workflow ----

  function SubPart(node: Node, maps: IdMaps): (map<string, Json>, seq<Line>) {
    if !IsSubWorkflowNode(node.kind) then (node.parameters, [])
    else
      var slot := SubSlot(node.name, Member(node.parameters, "workflowId"), maps);
      (if slot.1.Change? then node.parameters["workflowId" := slot.0] else node.parameters, [slot.1])
  }

  function CredentialPart(node: string, credentials: seq<(string, Json)>, maps: IdMaps)
    : (seq<(string, Json)>, seq<Line>)
  {
    if credentials == [] then ([], [])
    else
      var slot := CredentialSlot(node, credentials[0].0, credentials[0].1, maps);
      var rest := CredentialPart(node, credentials[1..], maps);
      ([(credentials[0].0, slot.0)] + rest.0, slot.1 + rest.1)
  }

  function FieldStep(node: string, parameters: map<string, Json>, field: string, maps: IdMaps)
    : (map<string, Json>, seq<Line>)
  {
    var slot := TableSlot(node, field, Member(parameters, field), maps);
    (if slot.1 != [] && slot.1[0].Change? then parameters[field := slot.0] else parameters, slot.1)
  }

  function TablePart(node: string, parameters: map<string, Json>, fields: seq<string>, maps: IdMaps)
    : (map<string, Json>, seq<Line>)
    decreases |fields|
  {
    if fields == [] then (parameters, [])
    else
      var step := FieldStep(node, parameters, fields[0], maps);
      var rest := TablePart(node, step.0, fields[1..], maps);
      (rest.0, step.1 + rest.1)
  }

  function NodePart(node: Node, maps: IdMaps): (Node, seq<Line>) {
    var sub := SubPart(node, maps);
    var credentials := CredentialPart(node.name, node.credentials, maps);
    var tables := TablePart(node.name, sub.0, TableFields(node.kind), maps);
    (Node(node.name, node.kind, tables.0, credentials.0), sub.1 + credentials.1 + tables.1)
  }

  function NodesPart(nodes: seq<Node>, maps: IdMaps): (seq<Node>, seq<Line>) {
    if nodes == [] then ([], [])
    else
      var first, rest := NodePart(nodes[0], maps), NodesPart(nodes[1..], maps);
      ([first.0] + rest.0, first.1 + rest.1)
  }

  /** The repointed workflow and one line for each reference, in the order of the visit. */
  function Repointed(workflow: Workflow, maps: IdMaps): (Workflow, seq<Line>) {
    var nodes, error := NodesPart(workflow.nodes, maps), ErrorSlot(workflow.errorWorkflow, maps);
    (Workflow(nodes.0, error.0), nodes.1 + error.1)
  }

  // ---- The loops of the source ----

  lemma {:induction false} OnlyConcat(a: seq<Line>, b: seq<Line>, p: Line -> bool)
    ensures Only(a + b, p) == Only(a, p) + Only(b, p)
  {
    if a == [] {
      assert a + b == b;
    } else {
      assert (a + b)[1..] == a[1..] + b;
      OnlyConcat(a[1..], b, p);
    }
  }

  lemma OnlySnoc(lines: seq<Line>, i: nat, p: Line -> bool)
    requires i < |lines|
    ensures Only(lines[..i + 1], p) == Only(lines[..i], p) + (if p(lines[i]) then [lines[i]] else [])
  {
    assert lines[..i + 1] == lines[..i] + [lines[i]];
    OnlyConcat(lines[..i], [lines[i]], p);
    assert [lines[i]][1..] == [];
  }

  lemma OnlyEmpty()
    ensures forall p :: Only([], p) == []
  {
  }

  method RepointCredentials(node: string, credentials: seq<(string, Json)>, maps: IdMaps)
    returns (bound: seq<(string, Json)>, lines: seq<Line>)
    ensures bound == CredentialPart(node, credentials, maps).0 && lines == CredentialPart(node, credentials, maps).1
  {
    hide CredentialSlot;
    bound, lines := [], [];
    for i := 0 to |credentials|
      invariant var rest := CredentialPart(node, credentials[i..], maps);
                var all := CredentialPart(node, credentials, maps);
                bound + rest.0 == all.0 && lines + rest.1 == all.1
    {
      assert credentials[i..][1..] == credentials[i + 1..];
      var slot := CredentialSlot(node, credentials[i].0, credentials[i].1, maps);
      bound, lines := bound + [(credentials[i].0, slot.0)], lines + slot.1;
    }
    assert credentials[|credentials|..] == [];
  }

  method RepointTables(node: string, before: map<string, Json>, fields: seq<string>, maps: IdMaps)
    returns (parameters: map<string, Json>, lines: seq<Line>)
    ensures parameters == TablePart(node, before, fields, maps).0 && lines == TablePart(node, before, fields, maps).1
  {
    hide FieldStep;
    parameters, lines := before, [];
    for i := 0 to |fields|
      invariant var rest := TablePart(node, parameters, fields[i..], maps);
                var all := TablePart(node, before, fields, maps);
                rest.0 == all.0 && lines + rest.1 == all.1
    {
      assert fields[i..][1..] == fields[i + 1..];
      var step := FieldStep(node, parameters, fields[i], maps);
      parameters, lines := step.0, lines + step.1;
    }
    assert fields[|fields|..] == [];
  }

  method RepointNodes(nodes: seq<Node>, maps: IdMaps) returns (repointed: seq<Node>, lines: seq<Line>)
    ensures repointed == NodesPart(nodes, maps).0 && lines == NodesPart(nodes, maps).1
  {
    hide SubPart, CredentialPart, TablePart;
    repointed, lines := [], [];
    for i := 0 to |nodes|
      invariant var rest := NodesPart(nodes[i..], maps);
                var all := NodesPart(nodes, maps);
                repointed + rest.0 == all.0 && lines + rest.1 == all.1
    {
      assert nodes[i..][1..] == nodes[i + 1..];
      var sub := SubPart(nodes[i], maps);
      var credentials, credentialLines := RepointCredentials(nodes[i].name, nodes[i].credentials, maps);
      var parameters, tableLines := RepointTables(nodes[i].name, sub.0, TableFields(nodes[i].kind), maps);
      repointed := repointed + [Node(nodes[i].name, nodes[i].kind, parameters, credentials)];
      lines := lines + (sub.1 + credentialLines + tableLines);
    }
    assert nodes[|nodes|..] == [];
  }

  /** The lines, each in its list. */
  method Report(lines: seq<Line>) returns (changed: seq<Line>, dangling: seq<Line>, finished: seq<Line>)
    ensures changed == Only(lines, IsChange)
    ensures dangling == Only(lines, IsDangling)
    ensures finished == Only(lines, IsDone)
  {
    hide Only;
    assert lines[..0] == [];
    OnlyEmpty();
    changed, dangling, finished := [], [], [];
    for i := 0 to |lines|
      invariant changed == Only(lines[..i], IsChange)
      invariant dangling == Only(lines[..i], IsDangling)
      invariant finished == Only(lines[..i], IsDone)
    {
      OnlySnoc(lines, i, IsChange);
      OnlySnoc(lines, i, IsDangling);
      OnlySnoc(lines, i, IsDone);
      if lines[i].Change? {
        changed := changed + [lines[i]];
      } else if IsDone(lines[i]) {
        finished := finished + [lines[i]];
      } else {
        dangling := dangling + [lines[i]];
      }
    }
    assert lines[..|lines|] == lines;
  }

  /** The repointed copy, the changes made, what still dangles, what was already done. */
  method RepointWorkflow(workflow: Workflow, maps: IdMaps)
    returns (out: Workflow, changed: seq<Line>, dangling: seq<Line>, finished: seq<Line>)
    ensures out == Repointed(workflow, maps).0
    ensures changed == Only(Repointed(workflow, maps).1, IsChange)
    ensures dangling == Only(Repointed(workflow, maps).1, IsDangling)
    ensures finished == Only(Repointed(workflow, maps).1, IsDone)
    ensures forall l :: l in changed <==> l in Repointed(workflow, maps).1 && l.Change?
    ensures forall l :: l in dangling <==> l in Repointed(workflow, maps).1 && (l.Unmapped? || l.ByHand? || l.NoId?)
    ensures forall l :: l in finished <==> l in Repointed(workflow, maps).1 && (l.Already? || l.ByName?)
  {
    hide NodesPart, ErrorSlot, Only;
    var nodes, lines := RepointNodes(workflow.nodes, maps);
    var error := ErrorSlot(workflow.errorWorkflow, maps);
    changed, dangling, finished := Report(lines + error.1);
    out := Workflow(nodes, error.0);
  }

  // ---- Reading an id map ----

  /** The normalised entry: a nonblank id, alone or in an object; anything else is refused. */
  function ParseEntry(value: Json): (target: Option<Target>)
  {
    match value
    case JStr(text) => if Strip(text, Blank) == "" then None else Some(Target(Strip(text, Blank), None))
    case JObj(fields) =>
      var id := Member(fields, "id");
      var text := if Falsy(id) then "" else Strip(PyStr(id), Blank);
      if text == "" then None
      else Some(Target(text, if Member(fields, "name").JStr? then Some(fields["name"].text) else None))
    case _ => None
  }

  lemma ParsedIdIsReadable(value: Json)
    ensures ParseEntry(value).Some? ==>
      ParseEntry(value).value.id != "" && Strip(ParseEntry(value).value.id, Blank) == ParseEntry(value).value.id
  {
    match value
    case JStr(text) => StripTwice(text, Blank);
    case JObj(fields) => StripTwice(PyStr(Member(fields, "id")), Blank);
    case _ =>
  }

  /**
   The map is refused when an entry has no id, or when a target id is itself a source id; an
   accepted map has readable target ids, none of which is a key.
   */
  method LoadMap(raw: map<string, Json>, exported: set<string>) returns (loaded: Option<map<string, Target>>)
    ensures loaded.Some? <==> forall key | key in raw ::
      ParseEntry(raw[key]).Some? && ParseEntry(raw[key]).value.id !in raw.Keys + exported
    ensures loaded.Some? ==> loaded.value.Keys == raw.Keys
    ensures loaded.Some? ==> forall key | key in raw :: ParseEntry(raw[key]) == Some(loaded.value[key])
    ensures loaded.Some? ==> forall key | key in loaded.value ::
      var id := loaded.value[key].id;
      id != "" && Strip(id, Blank) == id && id !in loaded.value
  {
    var read := ReadEntries(raw);
    if read.None? {
      return None;
    }
    hide ParseEntry, Strip;
    var out := read.value;
    var settled := NoIdIsIn(out, out.Keys + exported);
    if !settled {
      return None;
    }
    forall key | key in raw ensures out[key].id != "" && Strip(out[key].id, Blank) == out[key].id {
      ParsedIdIsReadable(raw[key]);
    }
    loaded := Some(out);
  }

  /** The first loop: every entry is read, or the first without an id stops it. */
  method ReadEntries(raw: map<string, Json>) returns (read: Option<map<string, Target>>)
    ensures read.Some? <==> forall key | key in raw :: ParseEntry(raw[key]).Some?
    ensures read.Some? ==> read.value.Keys == raw.Keys
    ensures read.Some? ==> forall key | key in raw :: ParseEntry(raw[key]) == Some(read.value[key])
  {
    hide ParseEntry;
    var out: map<string, Target> := map[];
    var todo := raw.Keys;
    while todo != {}
      invariant todo <= raw.Keys && out.Keys == raw.Keys - todo
      invariant forall key | key in out :: ParseEntry(raw[key]) == Some(out[key])
      decreases |todo|
    {
      var key :| key in todo;
      var entry := ParseEntry(raw[key]);
      if entry.None? {
        return None;
      }
      out, todo := out[key := entry.value], todo - {key};
    }
    read := Some(out);
  }

  /** The second loop: no target is itself a source. */
  method NoIdIsIn(targets: map<string, Target>, sources: set<string>) returns (settled: bool)
    ensures settled <==> forall key | key in targets :: targets[key].id !in sources
  {
    var todo := targets.Keys;
    while todo != {}
      invariant todo <= targets.Keys
      invariant forall key | key in targets && key !in todo :: targets[key].id !in sources
      decreases |todo|
    {
      var key :| key in todo;
      if targets[key].id in sources {
        return false;
      }
      todo := todo - {key};
    }
    settled := true;
  }
}
