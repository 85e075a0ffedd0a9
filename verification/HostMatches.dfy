/**
 Host rewriting by the characters of the texts: which places it takes, what it leaves, and what
 the report counts. Nothing here refers to the scans themselves.
 */
module HostMatches {
  import opened Prelude
  import opened Strings
  import opened Splices
  import opened HostRewrite

  ghost function Standing(text: string, host: string): set<nat> {
    set i: nat | i <= |text| && Stands(text, i, host) :: i
  }

  lemma ScanStep(text: string, host: string, put: string, from: nat, prev: Option<char>)
    requires host != "" && from <= |text| && prev == if from == 0 then None else Some(text[from - 1])
    ensures forall p | p in Standing(text, host) :: p + |host| <= |text| && p < |text|
    ensures var end := from + |host|;
            Substitute(prev, text[from..], host, put) ==
              (if from == |text| then ""
               else if from in Standing(text, host) then put + Substitute(Some(text[end - 1]), text[end..], host, put)
               else [text[from]] + Substitute(Some(text[from]), text[from + 1..], host, put))
            && Hits(prev, text[from..], host) ==
              (if from == |text| then 0
               else if from in Standing(text, host) then 1 + Hits(Some(text[end - 1]), text[end..], host)
               else Hits(Some(text[from]), text[from + 1..], host))
  {
    MatchIsStanding(text, from, host);
    assert from in Standing(text, host) <==> MatchHere(prev, text[from..], host);
    assert forall p | p in Standing(text, host) :: p + |host| <= |text| && p < |text|;
    if from in Standing(text, host) {
      var end := from + |host|;
      assert text[from..][|host|..] == text[end..] && text[from..][|host| - 1] == text[end - 1];
    }
    if from < |text| { assert text[from..][1..] == text[from + 1..]; }
    hide Stands, MatchHere, Standing;
  }

  /** From some position on, the scan takes the standing places from left to right and counts them. */
  lemma {:induction false} ScanIs(text: string, host: string, put: string, from: nat) returns (at: seq<nat>)
    requires host != "" && from <= |text|
    ensures LeftToRight(Standing(text, host), at, |host|, from)
    ensures var prev := if from == 0 then None else Some(text[from - 1]);
            Substitute(prev, text[from..], host, put) == Spliced(text, at, |host|, put, from)
            && Hits(prev, text[from..], host) == |at|
    decreases |text| - from
  {
    hide *;
    ScanStep(text, host, put, from, if from == 0 then None else Some(text[from - 1]));
    var places := Standing(text, host);
    if from == |text| {
      at := [];
      NoCut(text, places, |host|, put);
    } else if from in places {
      var rest := ScanIs(text, host, put, from + |host|);
      CutOne(text, places, rest, |host|, put, from);
      at := [from] + rest;
    } else {
      at := ScanIs(text, host, put, from + 1);
      CopyOne(text, places, at, |host|, put, from);
    }
  }

  /** The places a substitution takes: those that stand, from left to right, without overlap. */
  ghost predicate Takes(text: string, host: string, at: seq<nat>) {
    LeftToRight(Standing(text, host), at, |host|, 0)
  }

  /** A substitution puts NEW at each place it takes, copies the rest, and counts the places. */
  lemma SubstitutionIs(text: string, host: string, put: string, at: seq<nat>)
    requires host != ""
    ensures exists cuts :: Takes(text, host, cuts)
    ensures Takes(text, host, at) ==>
      && Substitute(None, text, host, put) == Spliced(text, at, |host|, put, 0)
      && Hits(None, text, host) == |at|
  {
    assert text[0..] == text;
    var cuts := ScanIs(text, host, put, 0);
    assert Takes(text, host, cuts);
    if Takes(text, host, at) { OneWay(Standing(text, host), cuts, at, |host|, 0); }
  }

  // ---- Several pairs, and trees ----

  /** The pairs act one after the other, each on what the one before left, and the report adds up the places. */
  ghost predicate TextOut(before: string, after: string, reported: nat, pairs: seq<Pair>)
    decreases |pairs|
  {
    if pairs == [] then after == before && reported == 0
    else exists at | Takes(before, pairs[0].0, at) ::
      |at| <= reported && TextOut(Spliced(before, at, |pairs[0].0|, pairs[0].1, 0), after, reported - |at|, pairs[1..])
  }

  /** String leaves are rewritten, everything else is as it was, and the report is the sum over the leaves. */
  ghost predicate TreeOut(before: Tree, after: Tree, reported: nat, pairs: seq<Pair>)
    decreases before, 0
  {
    match before
    case Text(text) => after.Text? && TextOut(text, after.text, reported, pairs)
    case Items(items) => after.Items? && ItemsOut(items, after.items, reported, pairs)
    case Members(members) => after.Members? && MembersOut(members, after.members, reported, pairs)
    case _ => after == before && reported == 0
  }

  ghost predicate ItemsOut(before: seq<Tree>, after: seq<Tree>, reported: nat, pairs: seq<Pair>)
    decreases before, 1
  {
    if before == [] then after == [] && reported == 0
    else after != [] && exists first: nat | first <= reported ::
      TreeOut(before[0], after[0], first, pairs) && ItemsOut(before[1..], after[1..], reported - first, pairs)
  }

  ghost predicate MembersOut(before: seq<Member>, after: seq<Member>, reported: nat, pairs: seq<Pair>)
    decreases before, 1
  {
    if before == [] then after == [] && reported == 0
    else after != [] && after[0].key == before[0].key && exists first: nat | first <= reported ::
      TreeOut(before[0].value, after[0].value, first, pairs) && MembersOut(before[1..], after[1..], reported - first, pairs)
  }

  lemma {:induction false} TextIsRewritten(text: string, pairs: seq<Pair>)
    requires forall p | p in pairs :: p.0 != ""
    ensures TextOut(text, RewriteText(text, pairs).0, RewriteText(text, pairs).1, pairs)
    decreases |pairs|
  {
    if pairs != [] {
      assert pairs[0] in pairs && forall p | p in pairs[1..] :: p in pairs;
      SubstitutionIs(text, pairs[0].0, pairs[0].1, []);
      var at :| Takes(text, pairs[0].0, at);
      SubstitutionIs(text, pairs[0].0, pairs[0].1, at);
      var next := Substitute(None, text, pairs[0].0, pairs[0].1);
      TextIsRewritten(next, pairs[1..]);
      hide Takes, Substitute, Hits, Spliced;
      assert RewriteText(text, pairs).1 - |at| == RewriteText(next, pairs[1..]).1;
    }
  }

  /** Rewriting a tree rewrites its strings, wherever they sit, and reports what it replaced. */
  lemma {:induction false} TreeIsRewritten(value: Tree, pairs: seq<Pair>)
    requires forall p | p in pairs :: p.0 != ""
    ensures TreeOut(value, RewriteStrings(value, pairs).0, RewriteStrings(value, pairs).1, pairs)
    decreases value, 0
  {
    hide TextOut, RewriteText;
    match value
    case Text(text) => TextIsRewritten(text, pairs);
    case Items(items) => ItemsAreRewritten(items, pairs);
    case Members(members) => MembersAreRewritten(members, pairs);
    case _ =>
  }

  lemma {:induction false} ItemsAreRewritten(items: seq<Tree>, pairs: seq<Pair>)
    requires forall p | p in pairs :: p.0 != ""
    ensures ItemsOut(items, RewriteItems(items, pairs).0, RewriteItems(items, pairs).1, pairs)
    decreases items, 1
  {
    if items != [] {
      TreeIsRewritten(items[0], pairs);
      ItemsAreRewritten(items[1..], pairs);
      hide TreeOut, RewriteStrings;
      var out := RewriteItems(items, pairs);
      assert out.0[1..] == RewriteItems(items[1..], pairs).0;
      assert TreeOut(items[0], out.0[0], RewriteStrings(items[0], pairs).1, pairs);
      assert out.1 - RewriteStrings(items[0], pairs).1 == RewriteItems(items[1..], pairs).1;
    }
  }

  lemma {:induction false} MembersAreRewritten(members: seq<Member>, pairs: seq<Pair>)
    requires forall p | p in pairs :: p.0 != ""
    ensures MembersOut(members, RewriteMembers(members, pairs).0, RewriteMembers(members, pairs).1, pairs)
    decreases members, 1
  {
    if members != [] {
      TreeIsRewritten(members[0].value, pairs);
      MembersAreRewritten(members[1..], pairs);
      hide TreeOut, RewriteStrings;
      var out := RewriteMembers(members, pairs);
      assert out.0[1..] == RewriteMembers(members[1..], pairs).0;
      assert out.1 - RewriteStrings(members[0].value, pairs).1 == RewriteMembers(members[1..], pairs).1;
    }
  }

  // ---- What inspect counts ----

  /** The places of the host, text by text; keys are not counted. */
  ghost predicate TreeCount(value: Tree, host: string, count: nat)
    decreases value, 0
  {
    match value
    case Text(text) => exists at | Takes(text, host, at) :: count == |at|
    case Items(items) => ItemsCount(items, host, count)
    case Members(members) => MembersCount(members, host, count)
    case _ => count == 0
  }

  ghost predicate ItemsCount(items: seq<Tree>, host: string, count: nat)
    decreases items, 1
  {
    if items == [] then count == 0
    else exists first: nat | first <= count :: TreeCount(items[0], host, first) && ItemsCount(items[1..], host, count - first)
  }

  ghost predicate MembersCount(members: seq<Member>, host: string, count: nat)
    decreases members, 1
  {
    if members == [] then count == 0
    else exists first: nat | first <= count ::
      TreeCount(members[0].value, host, first) && MembersCount(members[1..], host, count - first)
  }

  lemma {:induction false} SumHitsConcat(a: seq<string>, b: seq<string>, host: string)
    requires host != ""
    ensures SumHits(a + b, host) == SumHits(a, host) + SumHits(b, host)
  {
    if a == [] {
      assert a + b == b;
    } else {
      assert (a + b)[1..] == a[1..] + b;
      SumHitsConcat(a[1..], b, host);
    }
  }

  /** The number that inspect gives is the number of places in all strings of the tree. */
  lemma {:induction false} CountIs(value: Tree, host: string)
    requires host != ""
    ensures TreeCount(value, host, CountLiteral(value, host))
    decreases value, 0
  {
    hide Takes, Hits;
    match value
    case Text(text) =>
      SubstitutionIs(text, host, "", []);
      var at :| Takes(text, host, at);
      SubstitutionIs(text, host, "", at);
      assert [text][1..] == [] && CountLiteral(value, host) == Hits(None, text, host) + SumHits([text][1..], host);
    case Items(items) => ItemsCountIs(items, host);
    case Members(members) => MembersCountIs(members, host);
    case _ =>
  }

  lemma {:induction false} ItemsCountIs(items: seq<Tree>, host: string)
    requires host != ""
    ensures ItemsCount(items, host, SumHits(ItemLeaves(items), host))
    decreases items, 1
  {
    if items != [] {
      CountIs(items[0], host);
      ItemsCountIs(items[1..], host);
      SumHitsConcat(Leaves(items[0]), ItemLeaves(items[1..]), host);
      hide TreeCount, Leaves, SumHits;
      assert SumHits(ItemLeaves(items), host) - CountLiteral(items[0], host) == SumHits(ItemLeaves(items[1..]), host);
    }
  }

  lemma {:induction false} MembersCountIs(members: seq<Member>, host: string)
    requires host != ""
    ensures MembersCount(members, host, SumHits(MemberLeaves(members), host))
    decreases members, 1
  {
    if members != [] {
      CountIs(members[0].value, host);
      MembersCountIs(members[1..], host);
      SumHitsConcat(Leaves(members[0].value), MemberLeaves(members[1..]), host);
      hide TreeCount, Leaves, SumHits;
      assert SumHits(MemberLeaves(members), host) - CountLiteral(members[0].value, host) == SumHits(MemberLeaves(members[1..]), host);
    }
  }
}
