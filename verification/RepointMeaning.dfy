/**
 Repointing by the fields of the workflow: which lines the report holds, and what becomes of every
 parameter and credential. Nothing here refers to the functions that the loops compute.
 */
module RepointMeaning {
  import opened Prelude
  import opened JsonValues
  import opened Strings
  import opened Repoint
  import opened RepointGuarantees

  // ---- What a reference is ----

  /** The word stands in the text, but for case. */
  ghost predicate Says(text: string, at: int, word: string) {
    0 <= at && at + |word| <= |text| && forall j | 0 <= j < |word| :: Lower(text[at + j]) == word[j]
  }

  ghost predicate SubWorkflowKind(kind: string) {
    && !Says(kind, |kind| - |"trigger"|, "trigger")
    && exists at :: Says(kind, at, "executeworkflow") || Says(kind, at, "toolworkflow")
  }

  ghost predicate TableField(kind: string, field: string) {
    field == "dataTableId" || field == "tableId" || (field == "table" && exists at :: Says(kind, at, "datatable"))
  }

  /** A bare id, or a locator object with an id as its value: text, a number or a flag. */
  ghost predicate Refers(value: Json, id: string) {
    && id != ""
    && match value
       case JStr(text) => Stripped(text, Blank, id)
       case JObj(fields) =>
         "value" in fields
         && (match fields["value"]
             case JStr(text) => Stripped(text, Blank, id)
             case JNum(number) => id == if number < 0 then "-" + Digits(-number) else Digits(number)
             case JBool(flag) => id == if flag then "True" else "False"
             case _ => false)
       case _ => false
  }

  /** str(value or ""), when it is not empty. */
  ghost predicate Written(value: Json, id: string) {
    match value
    case JStr(text) => text != "" && id == text
    case JNum(number) => number != 0 && id == if number < 0 then "-" + Digits(-number) else Digits(number)
    case JBool(flag) => flag && id == "True"
    case JArr(items) => items != [] && id == "[...]"
    case JObj(fields) => fields != map[] && id == "{...}"
    case JNull => false
  }

  lemma NumeralIsBare(number: int)
    ensures var text := if number < 0 then "-" + Digits(-number) else Digits(number);
            Strip(text, Blank) == text != ""
  {
    var digits := Digits(if number < 0 then -number else number);
    DigitsRead(if number < 0 then -number else number);
    hide Digits;
    var text := if number < 0 then "-" + digits else digits;
    assert text[|text| - 1] in digits && (text[0] == '-' || text[0] in digits);
    EndsAreKept(text);
  }

  lemma EndsAreKept(text: string)
    requires text != "" && !Blank(text[0]) && !Blank(text[|text| - 1])
    ensures Strip(text, Blank) == text
  {
    assert text[0..|text|] == text;
    StripIs(text, Blank, text);
  }

  lemma FlagIsBare(flag: bool)
    ensures var text := if flag then "True" else "False"; Strip(text, Blank) == text
  {
    EndsAreKept(if flag then "True" else "False");
  }

  lemma RefersIs(value: Json, id: string)
    ensures Refers(value, id) <==> id != "" && RefId(value) == id
  {
    match value
    case JStr(text) => StripIs(text, Blank, id);
    case JObj(fields) =>
      if "value" in fields {
        match fields["value"]
        case JStr(text) => StripIs(text, Blank, id);
        case JNum(number) => NumeralIsBare(number);
        case JBool(flag) => FlagIsBare(flag);
        case _ =>
      }
    case _ =>
  }

  lemma WrittenIs(value: Json, id: string)
    ensures Written(value, id) <==> !Falsy(value) && PyStr(value) == id
    ensures Written(value, id) ==> id != ""
  {
    if value.JNum? { NumeralIsBare(value.number); }
  }

  /** An entry of an id map: a nonblank id, bare or in an object, stripped; with the object's name, if it has one. */
  lemma EntryIs(value: Json, target: Target)
    ensures ParseEntry(value) == Some(target) <==>
      && target.id != ""
      && match value
         case JStr(text) => Stripped(text, Blank, target.id) && target.name == None
         case JObj(fields) =>
           && target.name == (if "name" in fields && fields["name"].JStr? then Some(fields["name"].text) else None)
           && "id" in fields && exists text | Written(fields["id"], text) :: Stripped(text, Blank, target.id)
         case _ => false
  {
    match value
    case JStr(text) => StripIs(text, Blank, target.id);
    case JObj(fields) =>
      var id := Member(fields, "id");
      forall text { WrittenIs(id, text); }
      assert Written(id, PyStr(id)) <==> !Falsy(id);
      StripIs(PyStr(id), Blank, target.id);
      hide Written, Falsy, PyStr, Strip, Stripped;
    case _ =>
  }

  // ---- Kinds and fields ----

  lemma SaysIs(text: string, word: string)
    ensures (exists at :: Says(text, at, word)) <==> Has(Lowered(text), word)
    ensures Says(text, |text| - |word|, word) <==> EndsWith(Lowered(text), word)
  {
    var low := Lowered(text);
    forall at ensures Says(text, at, word) <==> 0 <= at <= |low| && StartsWith(low[at..], word) {
      if 0 <= at && at + |word| <= |text| {
        var part := low[at..][..|word|];
        assert forall j | 0 <= j < |word| :: part[j] == Lower(text[at + j]);
      }
    }
    if |word| <= |text| { assert low[|low| - |word|..][..|word|] == low[|low| - |word|..]; }
  }

  lemma KindsAre(kind: string, field: string)
    ensures SubWorkflowKind(kind) <==> IsSubWorkflowNode(kind)
    ensures TableField(kind, field) <==> field in TableFields(kind)
  {
    SaysIs(kind, "trigger");
    SaysIs(kind, "executeworkflow");
    SaysIs(kind, "toolworkflow");
    SaysIs(kind, "datatable");
    hide Lowered, Has, Says;
  }

  // ---- The report ----

  ghost function IdsOf(targets: map<string, Target>): map<string, string> {
    map k | k in targets :: targets[k].id
  }

  /** The line for an id: a change to its target, or already a target, or in no map. */
  ghost predicate Verdict(line: Line, place: Place, id: string, targets: map<string, string>) {
    line == if id in targets then Change(place, id, targets[id])
            else if exists k | k in targets :: targets[k] == id then Already(place, id)
            else Unmapped(place, id)
  }

  lemma TargetsAre(targets: map<string, Target>, ids: map<string, string>, id: string)
    ensures (exists k | k in IdsOf(targets) :: IdsOf(targets)[k] == id) <==> id in TargetIds(targets)
    ensures (exists k | k in ids :: ids[k] == id) <==> id in ids.Values
  {
    if id in TargetIds(targets) {
      var k :| k in targets && targets[k].id == id;
      assert k in IdsOf(targets) && IdsOf(targets)[k] == id;
    }
  }

  ghost predicate SubLine(line: Line, node: Node, maps: IdMaps) {
    var value := if "workflowId" in node.parameters then node.parameters["workflowId"] else JNull;
    && SubWorkflowKind(node.kind)
    && ((exists id | Refers(value, id) :: Verdict(line, SubWorkflow(node.name), id, maps.workflows))
        || (line == ByHand(SubWorkflow(node.name)) && forall id :: !Refers(value, id)))
  }

  ghost predicate CredentialLine(line: Line, node: string, kind: string, value: Json, maps: IdMaps) {
    && value.JObj?
    && (var id := if "id" in value.fields then value.fields["id"] else JNull;
        || (exists text | Written(id, text) :: Verdict(line, CredentialOf(node, kind), text, IdsOf(maps.credentials)))
        || (line == NoId(CredentialOf(node, kind)) && forall text :: !Written(id, text)))
  }

  ghost predicate TableLine(line: Line, node: string, field: string, value: Json, maps: IdMaps) {
    exists id | Refers(value, id) ::
      if value.JObj? && "mode" in value.fields && value.fields["mode"] == JStr("name")
      then line == ByName(TableOf(node, field), id)
      else Verdict(line, TableOf(node, field), id, IdsOf(maps.tables))
  }

  ghost predicate NodeLine(line: Line, node: Node, maps: IdMaps) {
    || SubLine(line, node, maps)
    || (exists c | c in node.credentials :: CredentialLine(line, node.name, c.0, c.1, maps))
    || exists field | TableField(node.kind, field) && field in node.parameters ::
         TableLine(line, node.name, field, node.parameters[field], maps)
  }

  ghost predicate ErrorLine(line: Line, value: Json, maps: IdMaps) {
    exists id | Written(value, id) :: Verdict(line, ErrorWorkflow, id, maps.workflows)
  }

  lemma SubLineIs(node: Node, maps: IdMaps, line: Line)
    ensures line in SubPart(node, maps).1 <==> SubLine(line, node, maps)
  {
    var value := Member(node.parameters, "workflowId");
    KindsAre(node.kind, "");
    if IsSubWorkflowNode(node.kind) {
      SubSlotIs(node, value, maps, line);
      hide IsSubWorkflowNode, SubWorkflowKind, Refers, SubSlot;
    }
  }

  lemma SubSlotIs(node: Node, value: Json, maps: IdMaps, line: Line)
    ensures SubSlot(node.name, value, maps).1 == line <==>
      (exists id | Refers(value, id) :: Verdict(line, SubWorkflow(node.name), id, maps.workflows))
      || (line == ByHand(SubWorkflow(node.name)) && forall id :: !Refers(value, id))
  {
    forall id { RefersIs(value, id); }
    var id := RefId(value);
    TargetsAre(map[], maps.workflows, id);
    hide Refers, RefId, SetRefId;
    if id == "" {
      assert forall other :: !Refers(value, other);
    } else {
      assert Refers(value, id);
    }
  }

  lemma CredentialLineIs(node: string, kind: string, value: Json, maps: IdMaps, line: Line)
    ensures line in CredentialSlot(node, kind, value, maps).1 <==> CredentialLine(line, node, kind, value, maps)
  {
    if !value.JObj? { return; }
    var id := Member(value.fields, "id");
    forall text { WrittenIs(id, text); }
    TargetsAre(maps.credentials, map[], PyStr(id));
    assert Written(id, PyStr(id)) <==> !Falsy(id);
    hide Written, Falsy, PyStr;
    if Falsy(id) {
      assert forall text :: !Written(id, text);
    } else {
      var text, at := PyStr(id), CredentialOf(node, kind);
      assert Written(id, text) && text != "";
      assert CredentialLine(line, node, kind, value, maps) <==> Verdict(line, at, text, IdsOf(maps.credentials));
      var lines := CredentialSlot(node, kind, value, maps).1;
      assert lines == [if text in maps.credentials then Change(at, text, maps.credentials[text].id)
                       else if text in TargetIds(maps.credentials) then Already(at, text) else Unmapped(at, text)];
      assert line in lines <==> line == lines[0];
    }
  }

  lemma NameIsName(value: Json)
    ensures PyStr(value) == "name" <==> value == JStr("name")
  {
    if value.JNum? {
      DigitsRead(if value.number < 0 then -value.number else value.number);
      assert PyStr(value)[0] == '-' || IsDigit(PyStr(value)[0]);
    } else if value.JBool? {
      assert "True"[0] != "name"[0] && "False"[0] != "name"[0];
    } else if !value.JStr? {
      assert "None"[0] != "name"[0] && "[...]"[0] != "name"[0] && "{...}"[0] != "name"[0];
    }
  }

  lemma TableLineIs(node: string, field: string, value: Json, maps: IdMaps, line: Line)
    ensures line in TableSlot(node, field, value, maps).1 <==> TableLine(line, node, field, value, maps)
  {
    forall id { RefersIs(value, id); }
    if value.JObj? && "mode" in value.fields { NameIsName(value.fields["mode"]); }
    var id := RefId(value);
    assert Refers(value, id) <==> id != "";
    TargetsAre(maps.tables, map[], id);
    hide Refers, RefId, SetRefId, PyStr;
  }

  lemma ErrorLineIs(value: Json, maps: IdMaps, line: Line)
    ensures line in ErrorSlot(value, maps).1 <==> ErrorLine(line, value, maps)
  {
    forall id { WrittenIs(value, id); }
    assert Written(value, PyStr(value)) <==> !Falsy(value);
    TargetsAre(map[], maps.workflows, PyStr(value));
    hide Written, Falsy, PyStr;
  }

  lemma {:induction false} CredentialLinesAre(node: string, credentials: seq<(string, Json)>, maps: IdMaps, line: Line)
    ensures line in CredentialPart(node, credentials, maps).1 <==>
      exists c | c in credentials :: CredentialLine(line, node, c.0, c.1, maps)
  {
    if credentials != [] {
      CredentialLineIs(node, credentials[0].0, credentials[0].1, maps, line);
      CredentialLinesAre(node, credentials[1..], maps, line);
      assert forall c :: c in credentials <==> c == credentials[0] || c in credentials[1..];
      hide CredentialLine, CredentialSlot;
    }
  }

  lemma {:induction false} TableLinesAre(node: string, parameters: map<string, Json>, seen: map<string, Json>,
                                         fields: seq<string>, maps: IdMaps, line: Line)
    requires Distinct(fields) && forall f | f in fields :: Member(parameters, f) == Member(seen, f)
    ensures line in TablePart(node, parameters, fields, maps).1 <==>
      exists f | f in fields :: TableLine(line, node, f, Member(seen, f), maps)
    decreases |fields|
  {
    if fields == [] { return; }
    assert fields[0] in fields;
    TableLineIs(node, fields[0], Member(seen, fields[0]), maps, line);
    OtherFieldsSeen(node, parameters, seen, fields, maps);
    assert forall f :: f in fields <==> f == fields[0] || f in fields[1..];
    assert FieldStep(node, parameters, fields[0], maps).1 == TableSlot(node, fields[0], Member(seen, fields[0]), maps).1;
    hide FieldStep, TableSlot, TableLine, Member, Distinct;
    TableLinesAre(node, FieldStep(node, parameters, fields[0], maps).0, seen, fields[1..], maps, line);
  }

  lemma NodeLineIs(node: Node, maps: IdMaps, line: Line)
    ensures line in NodePart(node, maps).1 <==> NodeLine(line, node, maps)
  {
    SubLineIs(node, maps, line);
    CredentialLinesAre(node.name, node.credentials, maps, line);
    FieldsAreDistinct(node.kind);
    var sub := SubPart(node, maps);
    forall f | f in TableFields(node.kind) ensures Member(sub.0, f) == Member(node.parameters, f) {
      SubPartKeeps(node, maps, f);
    }
    TableLinesAre(node.name, sub.0, node.parameters, TableFields(node.kind), maps, line);
    forall f { KindsAre(node.kind, f); }
    assert forall f :: TableLine(line, node.name, f, Member(node.parameters, f), maps) ==> f in node.parameters;
    hide SubPart, CredentialPart, TablePart, TableFields, TableField, SubLine, CredentialLine, TableLine;
  }

  /** The report holds exactly the lines that the workflow's fields call for. */
  lemma {:induction false} NodeLinesAre(nodes: seq<Node>, maps: IdMaps, line: Line)
    ensures line in NodesPart(nodes, maps).1 <==> exists node | node in nodes :: NodeLine(line, node, maps)
  {
    if nodes != [] {
      NodeLineIs(nodes[0], maps, line);
      NodeLinesAre(nodes[1..], maps, line);
      assert forall n :: n in nodes <==> n == nodes[0] || n in nodes[1..];
      hide NodePart, NodeLine;
    }
  }

  lemma ReportTells(workflow: Workflow, maps: IdMaps, line: Line)
    ensures line in Repointed(workflow, maps).1 <==>
      (exists node | node in workflow.nodes :: NodeLine(line, node, maps)) || ErrorLine(line, workflow.errorWorkflow, maps)
  {
    NodeLinesAre(workflow.nodes, maps, line);
    ErrorLineIs(workflow.errorWorkflow, maps, line);
    hide NodesPart, ErrorSlot, NodeLine, ErrorLine;
  }

  // ---- The copy ----

  /** The new value: a bare id, or the same locator with the id, its cached name and the end of its cached address. */
  ghost predicate Pointed(before: Json, from: string, to: string, name: Option<string>, after: Json) {
    if !before.JObj? then after == JStr(to)
    else
      && after.JObj? && after.fields.Keys == before.fields.Keys + {"value"} && after.fields["value"] == JStr(to)
      && forall key | key in before.fields && key != "value" ::
           var was, now := before.fields[key], after.fields[key];
           if key == "cachedResultName" && name.Some? && name.value != "" then now == JStr(name.value)
           else if key == "cachedResultUrl" && was.JStr? && from != "" && EndsWith(was.text, from)
           then now == JStr(was.text[..|was.text| - |from|] + to)
           else now == was
  }

  /** The parameter refers to that id, and its map covers it. */
  ghost predicate Covered(node: Node, key: string, value: Json, id: string, maps: IdMaps) {
    || (key == "workflowId" && SubWorkflowKind(node.kind) && id in maps.workflows)
    || (TableField(node.kind, key) && id in maps.tables
        && !(value.JObj? && "mode" in value.fields && value.fields["mode"] == JStr("name")))
  }

  ghost predicate ParameterOut(node: Node, key: string, before: Json, after: Json, maps: IdMaps) {
    && (forall id | Refers(before, id) && Covered(node, key, before, id, maps) ::
          if key == "workflowId"
          then Pointed(before, id, if id in maps.workflows then maps.workflows[id] else "",
                       if id in maps.names then Some(maps.names[id]) else None, after)
          else id in maps.tables && Pointed(before, id, maps.tables[id].id, maps.tables[id].name, after))
    && ((forall id | Refers(before, id) :: !Covered(node, key, before, id, maps)) ==> after == before)
  }

  ghost predicate CredentialOut(before: Json, after: Json, maps: IdMaps) {
    if !before.JObj? then after == before
    else
      var id := if "id" in before.fields then before.fields["id"] else JNull;
      && (forall text | Written(id, text) && text in maps.credentials ::
            var name := maps.credentials[text].name;
            after == JObj(map["id" := JStr(maps.credentials[text].id),
                              "name" := if name.Some? && name.value != "" then JStr(name.value)
                                        else if "name" in before.fields then before.fields["name"] else JStr("")]))
      && ((forall text | Written(id, text) :: text !in maps.credentials) ==> after == before)
  }

  /** Name, kind and keys stay; every parameter and credential is repointed or as it was. */
  ghost predicate NodeOut(before: Node, after: Node, maps: IdMaps) {
    && after.name == before.name && after.kind == before.kind
    && after.parameters.Keys == before.parameters.Keys
    && (forall key | key in before.parameters ::
          ParameterOut(before, key, before.parameters[key], after.parameters[key], maps))
    && |after.credentials| == |before.credentials|
    && forall i | 0 <= i < |before.credentials| ::
         after.credentials[i].0 == before.credentials[i].0
         && CredentialOut(before.credentials[i].1, after.credentials[i].1, maps)
  }

  ghost predicate ErrorOut(before: Json, after: Json, maps: IdMaps) {
    && (forall id | Written(before, id) && id in maps.workflows :: after == JStr(maps.workflows[id]))
    && ((forall id | Written(before, id) :: id !in maps.workflows) ==> after == before)
  }

  lemma SetIsPointed(value: Json, from: string, to: string, name: Option<string>)
    ensures Pointed(value, from, to, name, SetRefId(value, from, to, name))
  {
    assert "cachedResultName" != "value" && "cachedResultUrl" != "value" by {
      assert "cachedResultName"[0] != "value"[0] && "cachedResultUrl"[0] != "value"[0];
    }
    assert |"cachedResultName"| != |"cachedResultUrl"|;
  }

  lemma {:induction false} CredentialsOut(node: string, credentials: seq<(string, Json)>, maps: IdMaps)
    ensures var out := CredentialPart(node, credentials, maps).0;
      && |out| == |credentials|
      && forall i | 0 <= i < |credentials| ::
           out[i].0 == credentials[i].0 && CredentialOut(credentials[i].1, out[i].1, maps)
  {
    if credentials != [] {
      CredentialsOut(node, credentials[1..], maps);
      CredentialSlotOut(node, credentials[0].0, credentials[0].1, maps);
      hide CredentialOut, CredentialSlot;
    }
  }

  lemma CredentialSlotOut(node: string, kind: string, value: Json, maps: IdMaps)
    ensures CredentialOut(value, CredentialSlot(node, kind, value, maps).0, maps)
  {
    if !value.JObj? { return; }
    var id := Member(value.fields, "id");
    forall text { WrittenIs(id, text); }
    assert Written(id, PyStr(id)) <==> !Falsy(id);
    hide Written, Falsy, PyStr;
  }

  lemma {:induction false} TablesOut(node: string, parameters: map<string, Json>, fields: seq<string>, maps: IdMaps, key: string)
    requires Distinct(fields)
    ensures var out := TablePart(node, parameters, fields, maps).0;
      && (key in out <==> key in parameters)
      && (key in parameters ==>
            out[key] == if key in fields then TableSlot(node, key, parameters[key], maps).0 else parameters[key])
    decreases |fields|
  {
    if fields == [] { return; }
    var step := FieldStep(node, parameters, fields[0], maps);
    FieldOut(node, parameters, fields[0], maps, key);
    assert Distinct(fields[1..]) && fields[0] !in fields[1..];
    assert key in fields <==> key == fields[0] || key in fields[1..];
    hide FieldStep, TableSlot, Distinct;
    TablesOut(node, step.0, fields[1..], maps, key);
  }

  lemma FieldOut(node: string, parameters: map<string, Json>, field: string, maps: IdMaps, key: string)
    ensures var out := FieldStep(node, parameters, field, maps).0;
      && (key in out <==> key in parameters)
      && (key in parameters ==>
            out[key] == if key == field then TableSlot(node, key, parameters[key], maps).0 else parameters[key])
  {
    if field !in parameters { assert RefId(JNull) == ""; }
    hide SetRefId, TravelsByName;
  }

  lemma SubOut(node: Node, maps: IdMaps, key: string)
    ensures var out := SubPart(node, maps).0;
      && (key in out <==> key in node.parameters)
      && (key in node.parameters ==>
            out[key] == if key == "workflowId" && IsSubWorkflowNode(node.kind)
                        then SubSlot(node.name, node.parameters[key], maps).0 else node.parameters[key])
  {
    if "workflowId" !in node.parameters { assert RefId(JNull) == ""; }
    hide SetRefId, IsSubWorkflowNode;
  }

  lemma SubSlotOut(node: Node, value: Json, maps: IdMaps)
    requires SubWorkflowKind(node.kind) && !TableField(node.kind, "workflowId")
    ensures ParameterOut(node, "workflowId", value, SubSlot(node.name, value, maps).0, maps)
  {
    forall id { RefersIs(value, id); }
    var id := RefId(value);
    assert Refers(value, id) <==> id != "";
    if id in maps.workflows { SetIsPointed(value, id, maps.workflows[id], Lookup(maps.names, id)); }
    hide Refers, RefId, SetRefId, Pointed, SubWorkflowKind, TableField;
  }

  lemma TableSlotOut(node: Node, field: string, value: Json, maps: IdMaps)
    requires TableField(node.kind, field) && field != "workflowId"
    ensures ParameterOut(node, field, value, TableSlot(node.name, field, value, maps).0, maps)
  {
    forall id { RefersIs(value, id); }
    var id := RefId(value);
    assert Refers(value, id) <==> id != "";
    if value.JObj? && "mode" in value.fields { NameIsName(value.fields["mode"]); }
    if id in maps.tables { SetIsPointed(value, id, maps.tables[id].id, maps.tables[id].name); }
    hide Refers, RefId, SetRefId, Pointed, SubWorkflowKind, TableField, PyStr;
  }

  lemma NodeOutIs(node: Node, maps: IdMaps)
    ensures NodeOut(node, NodePart(node, maps).0, maps)
  {
    var out := NodePart(node, maps).0;
    CredentialsOut(node.name, node.credentials, maps);
    FieldsAreDistinct(node.kind);
    forall key ensures key in out.parameters <==> key in node.parameters {
      SubOut(node, maps, key);
      TablesOut(node.name, SubPart(node, maps).0, TableFields(node.kind), maps, key);
    }
    forall key | key in node.parameters
      ensures ParameterOut(node, key, node.parameters[key], out.parameters[key], maps)
    {
      ParameterOutIs(node, maps, key);
    }
    hide SubPart, TablePart, CredentialPart, ParameterOut, CredentialOut, TableFields;
  }

  lemma ParameterOutIs(node: Node, maps: IdMaps, key: string)
    requires key in node.parameters
    ensures key in NodePart(node, maps).0.parameters
    ensures ParameterOut(node, key, node.parameters[key], NodePart(node, maps).0.parameters[key], maps)
  {
    FieldsAreDistinct(node.kind);
    SubOut(node, maps, key);
    TablesOut(node.name, SubPart(node, maps).0, TableFields(node.kind), maps, key);
    KindsAre(node.kind, key);
    KindsAre(node.kind, "workflowId");
    hide SubPart, TablePart, CredentialPart, TableFields, TableSlot, SubSlot, Distinct;
    if TableField(node.kind, key) {
      TableSlotOut(node, key, node.parameters[key], maps);
    } else if key == "workflowId" && SubWorkflowKind(node.kind) {
      SubSlotOut(node, node.parameters[key], maps);
    }
    hide Refers, SubWorkflowKind, TableField;
  }

  lemma {:induction false} NodesOut(nodes: seq<Node>, maps: IdMaps)
    ensures |NodesPart(nodes, maps).0| == |nodes|
    ensures forall i | 0 <= i < |nodes| :: NodeOut(nodes[i], NodesPart(nodes, maps).0[i], maps)
  {
    if nodes != [] {
      NodeOutIs(nodes[0], maps);
      NodesOut(nodes[1..], maps);
      hide NodePart, NodeOut;
    }
  }

  /** Node by node and field by field, the repointed copy. */
  lemma CopyIsRepointed(workflow: Workflow, maps: IdMaps)
    ensures var out := Repointed(workflow, maps).0;
      && |out.nodes| == |workflow.nodes|
      && (forall i | 0 <= i < |workflow.nodes| :: NodeOut(workflow.nodes[i], out.nodes[i], maps))
      && ErrorOut(workflow.errorWorkflow, out.errorWorkflow, maps)
  {
    NodesOut(workflow.nodes, maps);
    var value := workflow.errorWorkflow;
    forall id { WrittenIs(value, id); }
    assert Written(value, PyStr(value)) <==> !Falsy(value);
    hide Written, Falsy, PyStr, NodesPart, NodeOut;
  }
}
