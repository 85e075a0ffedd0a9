/**
 What the parts of the compiler mean by themselves: text replacement, overlay keys,
 credential mapping, and what a rebuilt node carries over from its source.
 */
module CutoverCarries {
  import opened Prelude
  import opened JsonValues
  import opened Strings
  import opened CutoverModel
  import opened CutoverBuild
  import opened CutoverPhases
  import opened CutoverGuarantees

  // ---- Text ----

  /** No occurrence, no change. */
  lemma {:induction false} ReplaceNothing(text: string, from: string, to: string)
    requires from != "" && forall i | 0 <= i < |text| :: !StartsWith(text[i..], from)
    ensures Replace(text, from, to) == text
  {
    if text != "" {
      assert text[0..] == text;
      forall i | 0 <= i < |text[1..]| ensures !StartsWith(text[1..][i..], from) { assert text[1..][i..] == text[i + 1..]; }
      ReplaceNothing(text[1..], from, to);
    }
  }

  /** The first occurrence becomes the new text, and the rest is replaced likewise. */
  lemma {:induction false} ReplaceFirst(before: string, after: string, from: string, to: string)
    requires from != "" && forall i | 0 <= i < |before| :: !StartsWith((before + from + after)[i..], from)
    ensures Replace(before + from + after, from, to) == before + to + Replace(after, from, to)
    decreases |before|
  {
    var text := before + from + after;
    assert text[0..] == text;
    if before == "" {
      assert text == from + after;
      assert text[..|from|] == from && text[|from|..] == after;
      assert Replace(text, from, to) == to + Replace(text[|from|..], from, to);
    } else {
      var rest := before[1..] + from + after;
      assert text[1..] == rest;
      forall i | 0 <= i < |before[1..]| ensures !StartsWith(rest[i..], from) { assert rest[i..] == text[i + 1..]; }
      ReplaceFirst(before[1..], after, from, to);
      assert Replace(text, from, to) == [text[0]] + Replace(text[1..], from, to);
      assert before == [before[0]] + before[1..];
    }
  }

  /** Same constructors, same keys, same leaves, except for the text of string values. */
  ghost predicate SameShape(a: Json, b: Json)
    decreases a
  {
    match a
    case JStr(_) => b.JStr?
    case JArr(items) => b.JArr? && |b.items| == |items| && forall i | 0 <= i < |items| :: SameShape(items[i], b.items[i])
    case JObj(fields) => b.JObj? && b.fields.Keys == fields.Keys && forall k | k in fields :: SameShape(fields[k], b.fields[k])
    case _ => a == b
  }

  lemma {:induction false} RewriteKeepsShape(value: Json, maps: Maps)
    ensures SameShape(value, RewriteStrings(value, maps))
    decreases value
  {
    match value
    case JArr(items) =>
      forall i | 0 <= i < |items| ensures SameShape(items[i], RewriteStrings(items[i], maps)) {
        RewriteKeepsShape(items[i], maps);
      }
    case JObj(fields) =>
      forall k | k in fields ensures SameShape(fields[k], RewriteStrings(fields[k], maps)) {
        RewriteKeepsShape(fields[k], maps);
      }
    case _ =>
  }

  // ---- Overlay keys ----

  /** Lower case, no two underscores in a row, and inside a run none at the start. */
  ghost predicate Reduced(text: string, inRun: bool) {
    && (forall c | c in text :: LowerAlnum(c) || c == '_')
    && (forall i | 0 <= i < |text| - 1 :: text[i] == '_' ==> text[i + 1] != '_')
    && (inRun && text != "" ==> text[0] != '_')
  }

  lemma {:induction false} CollapseReduces(text: string, inRun: bool)
    ensures Reduced(Collapse(text, inRun), inRun)
  {
    if text != "" {
      CollapseReduces(text[1..], false);
      CollapseReduces(text[1..], true);
    }
  }

  lemma ReducedTail(text: string, inRun: bool)
    requires Reduced(text, inRun) && text != ""
    ensures Reduced(text[1..], text[0] == '_')
    ensures text[0] != '_' ==> LowerAlnum(Lower(text[0])) && Lower(text[0]) == text[0]
    ensures text[0] == '_' ==> !LowerAlnum(Lower(text[0])) && !inRun
  {
    assert text[0] in text && forall c | c in text[1..] :: c in text;
  }

  lemma {:induction false} ReducedCollapses(text: string, inRun: bool)
    requires Reduced(text, inRun)
    ensures Collapse(text, inRun) == text
  {
    if text != "" {
      ReducedTail(text, inRun);
      hide Reduced, LowerAlnum, Lower;
      ReducedCollapses(text[1..], text[0] == '_');
    }
  }

  lemma {:induction false} StripLeftReduced(text: string, drop: char -> bool)
    requires Reduced(text, false)
    ensures Reduced(StripLeft(text, drop), false)
  {
    if text != "" && drop(text[0]) { StripLeftReduced(text[1..], drop); }
  }

  /** A node name and the file stem it reduces to have one key: reducing twice is reducing once. */
  lemma OverlayKeyTwice(name: string)
    ensures OverlayKey(OverlayKey(name)) == OverlayKey(name)
  {
    var drop := Underscore;
    var collapsed := Collapse(name, false);
    CollapseReduces(name, false);
    StripLeftReduced(collapsed, drop);
    StripRightEnds(StripLeft(collapsed, drop), drop);
    var key := Strip(collapsed, drop);
    assert Snake(name) == key;
    assert Reduced(key, false);
    ReducedCollapses(key, false);
    StripTwice(collapsed, drop);
    assert Snake(key) == Strip(Collapse(key, false), drop);
  }

  // ---- Credentials and callers ----

  /** Type by type: the twin's id, under the twin's name or else the old one; no twin, no credential. */
  lemma {:induction false} MappedCredential(credentials: Credentials, maps: Maps, key: string)
    requires UniqueKeys(credentials)
    ensures var bound := Lookup(MapCredentials(credentials, maps), key);
            match Lookup(credentials, key)
            case None => bound == None
            case Some(reference) =>
              if reference.id !in maps.credentials then bound == None
              else bound.Some? && bound.value.id == maps.credentials[reference.id].id
                   && bound.value.name == (match maps.credentials[reference.id].name
                                           case None => reference.name case Some(name) => name)
  {
    if credentials != [] {
      MappedCredential(credentials[1..], maps, key);
      var rest := MapCredentials(credentials[1..], maps);
      var first := MapCredential(credentials[0].1, maps);
      if first.Some? {
        assert MapCredentials(credentials, maps) == [(credentials[0].0, first.value)] + rest;
        assert ([(credentials[0].0, first.value)] + rest)[1..] == rest;
      } else {
        assert MapCredentials(credentials, maps) == [] + rest == rest;
      }
      if credentials[0].0 == key { LookupIsLocal(credentials[1..], key); }
    }
  }

  /** The callers kept are exactly the nonblank ones, each as its twin or as itself. */
  lemma {:induction false} MappedCallers(parts: seq<string>, maps: Maps, id: string)
    ensures id in MapCallers(parts, maps) <==>
      exists part | part in parts :: Strip(part, Blank) != ""
        && id == (match PairGet(maps.workflowIds, Strip(part, Blank)) case Some(twin) => twin case None => Strip(part, Blank))
  {
    hide Strip;
    if parts != [] {
      MappedCallers(parts[1..], maps, id);
      assert forall part :: part in parts <==> part == parts[0] || part in parts[1..];
    }
  }

  // ---- Nodes ----

  /**
   A rebuilt node against its source: everything the source says is on it, a missing version
   aside, and what the source does not say comes from the node it replaces in place.
   */
  lemma RebuiltNodeCarries(source: seq<Node>, i: nat, target: map<string, Node>, maps: Maps, overlay: Overlay, key: string)
    requires i < |source| && UniqueKeys(source[i].credentials)
    ensures var node, rebuilt := source[i], RebuiltNode(source, i, target, maps, overlay);
            var existing := NodeAt(target, node.name);
            && rebuilt.kind == node.kind
            && (DefaultsVersion(node, target) ==> rebuilt.typeVersion == Some(JNum(1)))
            && (!DefaultsVersion(node, target) ==> Get(rebuilt.typeVersion) == Get(node.typeVersion))
            && rebuilt.position == Some(if node.position.Some? then node.position.value else [JNum(0), JNum(0)])
            && Truth(rebuilt.disabled) == Truth(node.disabled)
            && (key in NODE_SETTING_KEYS && key in node.settings ==>
                  key in rebuilt.settings && rebuilt.settings[key] == node.settings[key])
            && (key !in node.settings && InPlace(node, existing) ==>
                  (key in rebuilt.settings <==> key in existing.value.settings))
            && (key !in node.settings && !InPlace(node, existing) ==> key !in rebuilt.settings)
            && (if InPlace(node, existing)
                then rebuilt.id == existing.value.id && rebuilt.notes == existing.value.notes
                     && rebuilt.webhookId == existing.value.webhookId
                else rebuilt.webhookId == None
                     && rebuilt.id == (if Truth(node.id) then node.id else None)
                     && rebuilt.notes == (if Truth(node.notes) then node.notes else None))
  {
    var node := source[i];
    DisabledAgrees(node, NodeAt(target, node.name), WantedParameters(node, maps, OverlayAt(source, i, overlay)),
                   MapCredentials(node.credentials, maps));
    hide WantedParameters, MapCredentials, OverlayAt, PutAll, NODE_SETTING_KEYS, Truthy;
  }

  /** Its credentials: the mapped one of the source, else the one the replaced node had. */
  lemma RebuiltNodeBinds(source: seq<Node>, i: nat, target: map<string, Node>, maps: Maps, overlay: Overlay, key: string)
    requires i < |source| && UniqueKeys(source[i].credentials)
    ensures var node, rebuilt := source[i], RebuiltNode(source, i, target, maps, overlay);
            var existing, mapped := NodeAt(target, node.name), Lookup(MapCredentials(node.credentials, maps), key);
            Lookup(rebuilt.credentials, key)
            == if mapped.Some? || !InPlace(node, existing) then mapped else Lookup(existing.value.credentials, key)
  {
    var node := source[i];
    var existing := NodeAt(target, node.name);
    MapKeepsUnique(node.credentials, maps);
    if InPlace(node, existing) {
      LookupPutAll(existing.value.credentials, MapCredentials(node.credentials, maps), key);
    }
    hide WantedParameters, MapCredentials, OverlayAt;
  }
}
