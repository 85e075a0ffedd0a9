/**
 What the compiler writes into strings, by their characters: hosts, workflow ids and data table ids
 replaced in turn, nothing else changed, and what is gone afterwards.
 */
module CutoverTexts {
  import opened Prelude
  import opened JsonValues
  import opened Strings
  import opened Splices
  import opened CutoverModel
  import opened CutoverBuild
  import opened CutoverPhases

  ghost predicate OccursAt(text: string, at: nat, part: string) {
    at + |part| <= |text| && text[at..at + |part|] == part
  }

  ghost function Occurrences(text: string, part: string): set<nat> {
    set i: nat | i <= |text| && OccursAt(text, i, part) :: i
  }

  // ---- One replacement ----

  lemma StartsAt(text: string, from: nat, part: string)
    requires from <= |text|
    ensures StartsWith(text[from..], part) <==> from in Occurrences(text, part)
  {
    assert from in Occurrences(text, part) <==> OccursAt(text, from, part);
    if from + |part| <= |text| { assert text[from..][..|part|] == text[from..from + |part|]; }
  }

  lemma ReplaceStep(text: string, part: string, put: string, from: nat)
    requires part != "" && from <= |text|
    ensures forall p | p in Occurrences(text, part) :: p + |part| <= |text| && p < |text|
    ensures Replace(text[from..], part, put) ==
      if from == |text| then "" else if from in Occurrences(text, part) then put + Replace(text[from + |part|..], part, put)
      else [text[from]] + Replace(text[from + 1..], part, put)
  {
    StartsAt(text, from, part);
    assert from in Occurrences(text, part) ==> text[from..][|part|..] == text[from + |part|..];
    assert from < |text| ==> text[from..][1..] == text[from + 1..];
    hide StartsWith;
  }

  lemma {:induction false} ReplaceFrom(text: string, part: string, put: string, from: nat) returns (at: seq<nat>)
    requires part != "" && from <= |text|
    ensures LeftToRight(Occurrences(text, part), at, |part|, from)
    ensures Replace(text[from..], part, put) == Spliced(text, at, |part|, put, from)
    decreases |text| - from
  {
    hide *;
    ReplaceStep(text, part, put, from);
    var places := Occurrences(text, part);
    if from == |text| {
      at := [];
      NoCut(text, places, |part|, put);
    } else if from in places {
      var rest := ReplaceFrom(text, part, put, from + |part|);
      CutOne(text, places, rest, |part|, put, from);
      at := [from] + rest;
    } else {
      at := ReplaceFrom(text, part, put, from + 1);
      CopyOne(text, places, at, |part|, put, from);
    }
  }

  lemma InterleaveStep(text: string, put: string, from: nat)
    requires from <= |text|
    ensures forall p: nat :: p in Occurrences(text, "") <==> p <= |text|
    ensures Interleave(text[from..], put) ==
      if from == |text| then put else put + [text[from]] + Interleave(text[from + 1..], put)
  {
    forall p: nat ensures p in Occurrences(text, "") <==> p <= |text| {
      assert p <= |text| ==> OccursAt(text, p, "");
    }
    assert from < |text| ==> text[from..][1..] == text[from + 1..];
  }

  lemma {:induction false} InterleaveFrom(text: string, put: string, from: nat) returns (at: seq<nat>)
    requires from <= |text|
    ensures LeftToRight(Occurrences(text, ""), at, 0, from)
    ensures Interleave(text[from..], put) == Spliced(text, at, 0, put, from)
    decreases |text| - from
  {
    hide *;
    InterleaveStep(text, put, from);
    var places, rest := Occurrences(text, ""), [];
    if from == |text| {
      NothingBehind(text, put);
    } else {
      rest := InterleaveFrom(text, put, from + 1);
      CopyBefore(text, rest, put, from);
    }
    CutOne(text, places, rest, 0, put, from);
    at := [from] + rest;
  }

  lemma NothingBehind(text: string, put: string)
    ensures LeftToRight(Occurrences(text, ""), [], 0, |text| + 1) && Spliced(text, [], 0, put, |text|) == ""
  {
  }

  lemma CopyBefore(text: string, at: seq<nat>, put: string, from: nat)
    requires from < |text| && LeftToRight(Occurrences(text, ""), at, 0, from + 1)
    ensures Spliced(text, at, 0, put, from) == [text[from]] + Spliced(text, at, 0, put, from + 1)
  {
    var places := Occurrences(text, "");
    assert OccursAt(text, from + 1, "");
    assert from + 1 in places;
    assert at != [] && at[0] == from + 1;
    assert text[from..from + 1] == [text[from]] && text[from + 1..from + 1] == "";
  }

  /** str.replace: the occurrences from left to right, without overlap, are put anew; the rest is copied. */
  lemma ReplaceIs(text: string, part: string, put: string, out: string)
    ensures ReplacedAt(text, Occurrences(text, part), |part|, put, out) <==> out == Replace(text, part, put)
  {
    assert text[0..] == text;
    var at: seq<nat>;
    if part == "" { at := InterleaveFrom(text, put, 0); } else { at := ReplaceFrom(text, part, put, 0); }
    hide Occurrences, Replace, LeftToRight, Spliced;
    assert ReplacedAt(text, Occurrences(text, part), |part|, put, Replace(text, part, put));
    if ReplacedAt(text, Occurrences(text, part), |part|, put, out) {
      ReplacedOnce(text, Occurrences(text, part), |part|, put, out, Replace(text, part, put));
    }
  }

  // ---- A string, a tree ----

  /** What is replaced by what, in the order in which it is done. */
  ghost function Replacements(maps: Maps): Pairs {
    [(maps.hostFrom, maps.hostTo)] + maps.workflowIds + maps.dataTables
  }

  ghost predicate TextOut(before: string, after: string, pairs: Pairs)
    decreases |pairs|
  {
    if pairs == [] then after == before
    else exists next | ReplacedAt(before, Occurrences(before, pairs[0].0), |pairs[0].0|, pairs[0].1, next) ::
      TextOut(next, after, pairs[1..])
  }

  lemma {:induction false} PairsOut(text: string, out: string, pairs: Pairs)
    ensures TextOut(text, out, pairs) <==> out == ReplacePairs(text, pairs)
    decreases |pairs|
  {
    if pairs != [] {
      var next := Replace(text, pairs[0].0, pairs[0].1);
      forall other { ReplaceIs(text, pairs[0].0, pairs[0].1, other); }
      PairsOut(next, out, pairs[1..]);
      hide Replace, ReplacedAt, Occurrences;
    }
  }

  lemma {:induction false} PairsInTurn(text: string, a: Pairs, b: Pairs)
    ensures ReplacePairs(text, a + b) == ReplacePairs(ReplacePairs(text, a), b)
    decreases |a|
  {
    if a == [] {
      assert a + b == b;
    } else {
      assert (a + b)[1..] == a[1..] + b;
      PairsInTurn(Replace(text, a[0].0, a[0].1), a[1..], b);
    }
  }

  lemma TextIsRewritten(text: string, out: string, maps: Maps)
    ensures TextOut(text, out, Replacements(maps)) <==> out == RewriteText(text, maps)
  {
    var first := [(maps.hostFrom, maps.hostTo)];
    PairsInTurn(text, first + maps.workflowIds, maps.dataTables);
    PairsInTurn(text, first, maps.workflowIds);
    assert ReplacePairs(text, first) == ReplacePairs(Replace(text, maps.hostFrom, maps.hostTo), first[1..]);
    PairsOut(text, out, Replacements(maps));
  }

  /** Every string is rewritten, wherever it sits; keys, shape and everything else stay. */
  ghost predicate TreeOut(before: Json, after: Json, pairs: Pairs)
    decreases before
  {
    match before
    case JStr(text) => after.JStr? && TextOut(text, after.text, pairs)
    case JArr(items) =>
      after.JArr? && |after.items| == |items| && forall i | 0 <= i < |items| :: TreeOut(items[i], after.items[i], pairs)
    case JObj(fields) =>
      after.JObj? && after.fields.Keys == fields.Keys && forall k | k in fields :: TreeOut(fields[k], after.fields[k], pairs)
    case _ => after == before
  }

  lemma {:induction false} TreeIsRewritten(value: Json, out: Json, maps: Maps)
    ensures TreeOut(value, out, Replacements(maps)) <==> out == RewriteStrings(value, maps)
    decreases value
  {
    hide TextOut, RewriteText, Replacements;
    match value
    case JStr(text) =>
      if out.JStr? { TextIsRewritten(text, out.text, maps); }
    case JArr(items) =>
      if out.JArr? && |out.items| == |items| {
        forall i | 0 <= i < |items| { TreeIsRewritten(items[i], out.items[i], maps); }
      }
    case JObj(fields) =>
      if out.JObj? && out.fields.Keys == fields.Keys {
        forall k | k in fields { TreeIsRewritten(fields[k], out.fields[k], maps); }
      }
    case _ =>
  }

  // ---- Parameters ----

  /** The source's parameters with every string rewritten; with a file, it is the code. */
  ghost predicate ParametersOut(node: Node, file: Option<string>, parameters: map<string, Json>, maps: Maps) {
    && parameters.Keys == node.parameters.Keys + (if file.Some? then {"jsCode"} else {})
    && (file.Some? ==> parameters["jsCode"] == JStr(file.value))
    && forall key | key in node.parameters && (file.None? || key != "jsCode") ::
         TreeOut(node.parameters[key], parameters[key], Replacements(maps))
  }

  lemma WantedAre(node: Node, maps: Maps, overlay: Overlay, parameters: map<string, Json>)
    ensures var key := OverlayKey(node.name);
            ParametersOut(node, if node.kind == "n8n-nodes-base.code" && key in overlay then Some(overlay[key]) else None,
                          parameters, maps)
            <==> parameters == WantedParameters(node, maps, overlay)
  {
    forall key | key in node.parameters && key in parameters {
      TreeIsRewritten(node.parameters[key], parameters[key], maps);
    }
    var wanted := WantedParameters(node, maps, overlay);
    forall key | key in node.parameters && key in wanted {
      TreeIsRewritten(node.parameters[key], wanted[key], maps);
    }
    hide TreeOut, RewriteStrings, OverlayKey, Replacements;
  }

  // ---- What is gone ----

  ghost predicate Occurs(text: string, part: string) {
    exists i :: OccursAt(text, i, part)
  }

  /** Neither lies in the other, and no end of one is a beginning of the other. */
  ghost predicate Apart(part: string, put: string) {
    && !Occurs(put, part) && !Occurs(part, put)
    && forall n | 0 < n < |part| && n < |put| :: part[..n] != put[|put| - n..] && part[|part| - n..] != put[..n]
  }

  /** Where an occurrence can lie when something is put between two texts. */
  lemma AcrossCases(before: string, put: string, after: string, part: string, i: nat)
    requires part != "" && OccursAt(before + put + after, i, part)
    ensures Occurs(before, part) || Occurs(after, part) || !Apart(part, put)
  {
    var end := i + |part|;
    var b, p := |before|, |before| + |put|;
    if end <= b || i >= p || (i >= b && end <= p) {
      WithinOne(before, put, after, part, i);
    } else if i <= b && end >= p {
      PutIn(before, put, after, i, end);
      assert OccursAt(part, b - i, put);
    } else {
      OverlapCases(before, put, after, part, i);
    }
  }

  lemma PutIn(before: string, put: string, after: string, i: nat, end: nat)
    requires i <= |before| && |before| + |put| <= end <= |before + put + after|
    ensures (before + put + after)[i..end][|before| - i..|before| + |put| - i] == put
  {
    var text, b := before + put + after, |before|;
    assert text[i..end] == text[i..b] + text[b..b + |put|] + text[b + |put|..end];
    assert text[b..b + |put|] == put;
  }

  lemma WithinOne(before: string, put: string, after: string, part: string, i: nat)
    requires OccursAt(before + put + after, i, part)
    requires i + |part| <= |before| || i >= |before| + |put| || (i >= |before| && i + |part| <= |before| + |put|)
    ensures Occurs(before, part) || Occurs(after, part) || Occurs(put, part)
  {
    var text := before + put + after;
    var end := i + |part|;
    var b, p := |before|, |before| + |put|;
    if end <= b {
      assert before[i..end] == text[i..end];
      assert OccursAt(before, i, part);
    } else if i >= p {
      assert text[p..] == after && text[p..][i - p..end - p] == text[i..end];
      assert OccursAt(after, i - p, part);
    } else {
      assert text[b..p] == put && text[b..p][i - b..end - b] == text[i..end];
      assert OccursAt(put, i - b, part);
    }
  }

  lemma OverlapCases(before: string, put: string, after: string, part: string, i: nat)
    requires OccursAt(before + put + after, i, part)
    requires (i < |before| < i + |part| < |before| + |put|) || (|before| < i < |before| + |put| < i + |part|)
    ensures !Apart(part, put)
  {
    var text := before + put + after;
    var end := i + |part|;
    var b, p := |before|, |before| + |put|;
    if i < b {
      var n := end - b;
      assert part[|part| - n..] == text[b..end] && text[b..end] == put[..n];
      assert 0 < n < |part| && n < |put|;
    } else {
      var n := p - i;
      assert part[..n] == text[i..p] && text[i..p] == put[|put| - n..];
      assert 0 < n < |part| && n < |put|;
    }
  }

  /** Nothing on either side of what is put, nothing across it. */
  lemma NotAcross(before: string, put: string, after: string, part: string)
    requires part != "" && Apart(part, put) && !Occurs(before, part) && !Occurs(after, part)
    ensures !Occurs(before + put + after, part)
  {
    if i: nat :| OccursAt(before + put + after, i, part) { AcrossCases(before, put, after, part, i); }
  }

  /** The copied stretches hold no occurrence. */
  ghost predicate PiecesLack(text: string, at: seq<nat>, width: nat, from: nat, part: string)
    decreases |at|
  {
    if at == [] then !Occurs(text[if from <= |text| then from else |text|..], part)
    else !Occurs(if from <= at[0] <= |text| then text[from..at[0]] else "", part)
         && PiecesLack(text, at[1..], width, at[0] + width, part)
  }

  lemma {:induction false} NotSpliced(text: string, at: seq<nat>, width: nat, put: string, from: nat, part: string)
    requires part != "" && Apart(part, put) && PiecesLack(text, at, width, from, part)
    ensures !Occurs(Spliced(text, at, width, put, from), part)
    decreases |at|
  {
    hide Apart, Occurs;
    if at != [] {
      NotSpliced(text, at[1..], width, put, at[0] + width, part);
      NotAcross(if from <= at[0] <= |text| then text[from..at[0]] else "", put,
                Spliced(text, at[1..], width, put, at[0] + width), part);
    }
  }

  lemma NotInside(text: string, from: nat, to: nat, part: string)
    requires from <= to <= |text| && forall i: nat | from <= i && i + |part| <= to :: !OccursAt(text, i, part)
    ensures !Occurs(text[from..to], part)
  {
    if i: nat :| OccursAt(text[from..to], i, part) { InsideIsThere(text, from, to, part, i); }
  }

  lemma InsideIsThere(text: string, from: nat, to: nat, part: string, i: nat)
    requires from <= to <= |text| && OccursAt(text[from..to], i, part)
    ensures from + i + |part| <= to && OccursAt(text, from + i, part)
  {
    var piece := text[from..to];
    assert forall j | 0 <= j < |piece| :: piece[j] == text[from + j];
    assert piece[i..i + |part|] == text[from + i..from + i + |part|];
  }

  lemma {:induction false} PiecesLackThePart(text: string, at: seq<nat>, width: nat, from: nat, part: string)
    requires part != "" && width == |part| && from <= |text| && LeftToRight(Occurrences(text, part), at, width, from)
    ensures PiecesLack(text, at, width, from, part)
    decreases |at|
  {
    forall i: nat | OccursAt(text, i, part) ensures i in Occurrences(text, part) {}
    if at == [] {
      NotInside(text, from, |text|, part);
      assert text[from..|text|] == text[from..];
    } else {
      assert at[0] + width <= |text|;
      NotInside(text, from, at[0], part);
      PiecesLackThePart(text, at[1..], width, at[0] + width, part);
    }
  }

  lemma {:induction false} PiecesLackOthers(text: string, at: seq<nat>, width: nat, from: nat, part: string)
    requires part != "" && !Occurs(text, part)
    ensures PiecesLack(text, at, width, from, part)
    decreases |at|
  {
    NotInside(text, |text|, |text|, part);
    assert text[|text|..|text|] == text[|text|..] == "";
    if at == [] {
      if from <= |text| {
        NotInside(text, from, |text|, part);
        assert text[from..|text|] == text[from..];
      }
    } else {
      if from <= at[0] <= |text| { NotInside(text, from, at[0], part); }
      PiecesLackOthers(text, at[1..], width, at[0] + width, part);
    }
  }

  /** A replacement removes its key, and makes nothing that it is apart from. */
  lemma ReplacementRemoves(text: string, key: string, put: string, part: string)
    requires part != "" && Apart(part, put) && (key == part || !Occurs(text, part))
    ensures !Occurs(Replace(text, key, put), part)
  {
    ReplaceIs(text, key, put, Replace(text, key, put));
    var at :| LeftToRight(Occurrences(text, key), at, |key|, 0) && Replace(text, key, put) == Spliced(text, at, |key|, put, 0);
    if key == part { PiecesLackThePart(text, at, |key|, 0, part); } else { PiecesLackOthers(text, at, |key|, 0, part); }
    NotSpliced(text, at, |key|, put, 0, part);
  }

  lemma {:induction false} NotMadeAgain(text: string, pairs: Pairs, part: string)
    requires part != "" && !Occurs(text, part) && forall p | p in pairs :: Apart(part, p.1)
    ensures !Occurs(ReplacePairs(text, pairs), part)
    decreases |pairs|
  {
    hide Occurs, Apart, Replace;
    if pairs != [] {
      ReplacementRemoves(text, pairs[0].0, pairs[0].1, part);
      NotMadeAgain(Replace(text, pairs[0].0, pairs[0].1), pairs[1..], part);
    }
  }

  lemma {:induction false} KeyIsGone(text: string, pairs: Pairs, k: nat)
    requires k < |pairs| && pairs[k].0 != "" && forall i | k <= i < |pairs| :: Apart(pairs[k].0, pairs[i].1)
    ensures !Occurs(ReplacePairs(text, pairs), pairs[k].0)
    decreases |pairs|
  {
    hide Occurs, Apart, Replace;
    var next := Replace(text, pairs[0].0, pairs[0].1);
    if k > 0 {
      assert forall i | k - 1 <= i < |pairs[1..]| :: pairs[1..][i] == pairs[i + 1];
      KeyIsGone(next, pairs[1..], k - 1);
    } else {
      ReplacementRemoves(text, pairs[0].0, pairs[0].1, pairs[0].0);
      forall p | p in pairs[1..] ensures Apart(pairs[0].0, p.1) {
        var i :| 0 <= i < |pairs[1..]| && pairs[1..][i] == p;
        assert pairs[i + 1] == p;
      }
      NotMadeAgain(next, pairs[1..], pairs[0].0);
    }
  }

  /** No string of the tree holds the part. */
  ghost predicate Lacks(value: Json, part: string)
    decreases value
  {
    match value
    case JStr(text) => !Occurs(text, part)
    case JArr(items) => forall i | 0 <= i < |items| :: Lacks(items[i], part)
    case JObj(fields) => forall k | k in fields :: Lacks(fields[k], part)
    case _ => true
  }

  /** An identifier that no replacement from its own on can write again is in no string of a rewritten tree. */
  lemma {:induction false} IdentifierIsGone(before: Json, after: Json, pairs: Pairs, k: nat)
    requires TreeOut(before, after, pairs)
    requires k < |pairs| && pairs[k].0 != "" && forall i | k <= i < |pairs| :: Apart(pairs[k].0, pairs[i].1)
    ensures Lacks(after, pairs[k].0)
    decreases before
  {
    hide Occurs, Apart, TextOut;
    match before
    case JStr(text) =>
      PairsOut(text, after.text, pairs);
      KeyIsGone(text, pairs, k);
    case JArr(items) =>
      forall i | 0 <= i < |items| ensures Lacks(after.items[i], pairs[k].0) { IdentifierIsGone(items[i], after.items[i], pairs, k); }
    case JObj(fields) =>
      forall key | key in fields ensures Lacks(after.fields[key], pairs[k].0) {
        IdentifierIsGone(fields[key], after.fields[key], pairs, k);
      }
    case _ =>
  }

  /** The condition is needed: a value that holds its key, or ends as the key begins, can leave the key behind. */
  lemma KeyComesBack(key: string, put: string, n: nat) returns (text: string)
    requires key != "" && (Occurs(put, key) || (0 < n < |key| && n <= |put| && put[|put| - n..] == key[..n]))
    ensures Occurs(Replace(text, key, put), key)
  {
    if Occurs(put, key) {
      text := key;
      ReplaceHead(key, "", put);
      assert key + "" == key && put + Replace("", key, put) == put;
    } else {
      text := key + key[n..];
      ReplaceHead(key, key[n..], put);
      ShortIsKept(key[n..], key, put);
      StemAndRest(key, put, n);
      hide Replace;
    }
  }

  lemma ReplaceHead(key: string, rest: string, put: string)
    requires key != ""
    ensures Replace(key + rest, key, put) == put + Replace(rest, key, put)
  {
    assert (key + rest)[..|key|] == key && (key + rest)[|key|..] == rest;
  }

  lemma StemAndRest(key: string, put: string, n: nat)
    requires 0 < n < |key| && n <= |put| && put[|put| - n..] == key[..n]
    ensures Occurs(put + key[n..], key)
  {
    var i, text := |put| - n, put + key[n..];
    assert key == key[..n] + key[n..];
    assert text[i..i + |key|] == put[i..] + key[n..];
    assert OccursAt(text, i, key);
  }

  lemma {:induction false} ShortIsKept(text: string, key: string, put: string)
    requires |text| < |key|
    ensures Replace(text, key, put) == text
  {
    if text != "" { ShortIsKept(text[1..], key, put); }
  }
}
