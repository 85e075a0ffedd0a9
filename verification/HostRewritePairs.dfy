/**
 All pairs of a rewrite over whole JSON trees: which OLD can come back and when, what is reported,
 and what a second rewrite does.

 The pairs act one after the other, so an OLD that is gone after its own pair can be made again by a
 later one: by its NEW alone, or by its NEW together with what stands beside it. The theorems say
 exactly when that happens. Trees are rewritten leaf by leaf, and their keys stay.
 */
module HostRewritePairs {
  import opened Prelude
  import opened Strings
  import opened HostRewrite
  import opened HostRewriteGuarantees
  import opened HostRewriteEnds

  /** What ParsePairs accepts, with OLD sides that end in a word character. */
  ghost predicate AcceptedPairs(pairs: seq<Pair>) {
    (forall p | p in pairs :: Ended(p.0) && Literal(p.1)) && Unchained(pairs)
  }

  /** The same with OLD sides made of word characters throughout. */
  ghost predicate AcceptedHosts(pairs: seq<Pair>) {
    (forall p | p in pairs :: WordHost(p.0) && Literal(p.1)) && Unchained(pairs)
  }

  /** No two OLD sides can match at one place. */
  ghost predicate Apart(pairs: seq<Pair>) {
    forall i, j | 0 <= i < j < |pairs| :: Fold(pairs[i].0) != Fold(pairs[j].0) && !Related(pairs[i].0, pairs[j].0)
  }

  /** Some pair names the host, and neither its NEW nor a later one makes it. */
  ghost predicate StaysGone(pairs: seq<Pair>, host: string) {
    exists j | 0 <= j < |pairs| :: Fold(pairs[j].0) == Fold(host) && NoneMakesFrom(pairs, j, host)
  }

  /** With a host that NEW does not hold, what is left of making it is to regrow or to join it. */
  ghost predicate NoneMakesFrom(pairs: seq<Pair>, j: nat, host: string) {
    forall i | j <= i < |pairs| :: !Regrows(pairs[i].1, host) && !Joins(pairs[i].0, pairs[i].1, host)
  }

  /** Pairs that neither name the host nor one related to it. */
  ghost predicate Foreign(pairs: seq<Pair>, host: string) {
    forall p | p in pairs :: Fold(p.0) != Fold(host) && !Related(host, p.0)
  }

  ghost predicate NoneContains(pairs: seq<Pair>, host: string)
    requires host != ""
  {
    forall p | p in pairs :: !Contains(p.1, host)
  }

  lemma MakesIfNotHeld(pair: Pair, host: string)
    requires host != "" && !Contains(pair.1, host)
    ensures Brings(pair.1, host) <==> Regrows(pair.1, host)
    ensures Makes(pair.0, pair.1, host) <==> Regrows(pair.1, host) || Joins(pair.0, pair.1, host)
  {
    HitsIfPlaces(None, pair.1, host);
  }

  lemma HostsAreAccepted(pairs: seq<Pair>)
    requires AcceptedHosts(pairs)
    ensures AcceptedPairs(pairs)
  {
    hide Contains, Literal, WordHost, Ended;
    forall p | p in pairs ensures Ended(p.0) { WordIsEnded(p.0); }
  }

  lemma TailIsAccepted(pairs: seq<Pair>)
    requires AcceptedHosts(pairs) && pairs != []
    ensures AcceptedHosts(pairs[1..]) && WordHost(pairs[0].0) && Literal(pairs[0].1)
    ensures Apart(pairs) ==> Apart(pairs[1..])
  {
    assert pairs[0] in pairs && forall p | p in pairs[1..] :: p in pairs;
    hide Contains, Related, Fold, WordHost, Literal;
  }

  // ---- One text, all pairs ----

  /** What all pairs do to the places of a host that no NEW holds. */
  ghost predicate GoneMove(pairs: seq<Pair>, host: string, before: nat, after: nat) {
    (NoneMakesFrom(pairs, 0, host) ==> after <= before) && (StaysGone(pairs, host) ==> after == 0)
  }

  lemma MovesCompose(pairs: seq<Pair>, host: string, before: nat, middle: nat, after: nat)
    requires pairs != []
    requires !Regrows(pairs[0].1, host) && !Joins(pairs[0].0, pairs[0].1, host) ==>
               middle <= before && (Fold(host) == Fold(pairs[0].0) ==> middle == 0)
    requires GoneMove(pairs[1..], host, middle, after)
    ensures GoneMove(pairs, host, before, after)
  {
    hide Regrows, Joins, Fold;
    if NoneMakesFrom(pairs, 0, host) {
      assert !Regrows(pairs[0].1, host) && NoneMakesFrom(pairs[1..], 0, host);
    }
    if StaysGone(pairs, host) {
      var j :| 0 <= j < |pairs| && Fold(pairs[j].0) == Fold(host) && NoneMakesFrom(pairs, j, host);
      if j == 0 {
        assert !Regrows(pairs[0].1, host) && NoneMakesFrom(pairs[1..], 0, host);
      } else {
        assert pairs[1..][j - 1] == pairs[j] && NoneMakesFrom(pairs[1..], j - 1, host);
      }
    }
  }

  lemma TailOfPairs(pairs: seq<Pair>)
    requires AcceptedPairs(pairs) && pairs != []
    ensures AcceptedPairs(pairs[1..]) && Ended(pairs[0].0) && Literal(pairs[0].1) && forall p | p in pairs :: p.0 != ""
  {
    assert pairs[0] in pairs && forall p | p in pairs[1..] :: p in pairs;
    hide Contains;
  }

  lemma {:induction false} PlacesAfterAll(text: string, pairs: seq<Pair>, host: string)
    requires AcceptedPairs(pairs) && Ended(host) && NoneContains(pairs, host)
    ensures forall p | p in pairs :: p.0 != ""
    ensures GoneMove(pairs, host, Places(None, text, host), Places(None, RewriteText(text, pairs).0, host))
    decreases |pairs|
  {
    if pairs != [] {
      TailOfPairs(pairs);
      assert pairs[0] in pairs && forall p | p in pairs[1..] :: p in pairs;
      var middle := Substitute(None, text, pairs[0].0, pairs[0].1);
      MakesIfNotHeld(pairs[0], host);
      hide AcceptedPairs, Contains, Places, Substitute, Regrows, Joins, Brings, GoneMove, Makes;
      if !Makes(pairs[0].0, pairs[0].1, host) { PlacesNotGained(None, None, text, pairs[0].0, pairs[0].1, host); }
      PlacesAfterAll(middle, pairs[1..], host);
      MovesCompose(pairs, host, Places(None, text, host), Places(None, middle, host),
                   Places(None, RewriteText(text, pairs).0, host));
    }
  }

  /** A host that no OLD can match keeps every occurrence. */
  lemma {:induction false} TextKept(text: string, pairs: seq<Pair>, host: string)
    requires AcceptedHosts(pairs) && WordHost(host) && Foreign(pairs, host)
    ensures Hits(None, RewriteText(text, pairs).0, host) >= Hits(None, text, host)
    decreases |pairs|
  {
    if pairs != [] {
      TailIsAccepted(pairs);
      assert pairs[0] in pairs && forall p | p in pairs[1..] :: p in pairs;
      HitsAfter(text, pairs[0], host);
      hide AcceptedHosts, Contains, Hits, Substitute, Related, Brings;
      TextKept(Substitute(None, text, pairs[0].0, pairs[0].1), pairs[1..], host);
    }
  }

  // ---- The exact condition ----

  /** No pair's NEW regrows an OLD named by the pair itself or before it. */
  ghost predicate NeverRegrown(pairs: seq<Pair>) {
    forall j, i | 0 <= j <= i < |pairs| :: !Regrows(pairs[i].1, pairs[j].0)
  }

  ghost predicate LeavesNoOld(pairs: seq<Pair>)
    requires forall p | p in pairs :: p.0 != ""
  {
    forall text, p | p in pairs :: Hits(None, RewriteText(text, pairs).0, p.0) == 0
  }

  lemma PairsNotEmpty(pairs: seq<Pair>)
    requires AcceptedHosts(pairs)
    ensures forall p | p in pairs :: p.0 != ""
  {
  }

  /** Pairs that find nothing change nothing. */
  lemma {:induction false} QuietPrefix(text: string, pairs: seq<Pair>, n: nat)
    requires n <= |pairs| && forall p | p in pairs :: p.0 != ""
    requires forall m | 0 <= m < n :: Hits(None, text, pairs[m].0) == 0
    ensures forall p | p in pairs[n..] :: p.0 != ""
    ensures RewriteText(text, pairs) == RewriteText(text, pairs[n..])
    decreases n
  {
    if n == 0 {
      assert pairs[0..] == pairs;
    } else {
      NoHitsNoChange(None, text, pairs[0].0, pairs[0].1);
      forall m | 0 <= m < n - 1 ensures Hits(None, text, pairs[1..][m].0) == 0 { assert pairs[1..][m] == pairs[m + 1]; }
      QuietPrefix(text, pairs[1..], n - 1);
      assert pairs[1..][n - 1..] == pairs[n..];
    }
  }

  /** In a text of word characters that starts with one OLD, the pairs find that OLD and nothing else. */
  lemma OneOldStands(pairs: seq<Pair>, i: nat, text: string)
    requires AcceptedHosts(pairs) && Apart(pairs) && i < |pairs|
    requires WordHost(text) && MatchHere(None, text, pairs[i].0)
    ensures forall m | 0 <= m < |pairs| :: Hits(None, text, pairs[m].0) == if m == i then 1 else 0
  {
    forall m | 0 <= m < |pairs| ensures Hits(None, text, pairs[m].0) == if m == i then 1 else 0 {
      assert pairs[m] in pairs && pairs[i] in pairs;
      WordPlaces(text, pairs[m].0);
      HitsArePlaces(None, text, pairs[m].0);
      if m != i && MatchHere(None, text, pairs[m].0) {
        TwoMatches(None, text, pairs[m].0, pairs[i].0);
      }
    }
  }

  /** The text in which pair i regrows the OLD of pair j, and what the rewrite makes of it. */
  lemma RegrownText(pairs: seq<Pair>, i: nat, j: nat) returns (text: string, middle: string)
    requires AcceptedHosts(pairs) && Apart(pairs) && i < |pairs| && j < |pairs| && Regrows(pairs[i].1, pairs[j].0)
    ensures forall p | p in pairs :: p.0 != ""
    ensures WordHost(text) && MatchHere(None, text, pairs[i].0)
    ensures AcceptedHosts(pairs[i + 1..]) && Hits(None, middle, pairs[j].0) > 0
    ensures RewriteText(text, pairs).0 == RewriteText(middle, pairs[i + 1..]).0
    ensures RewriteText(text, pairs).1 == 1 + RewriteText(middle, pairs[i + 1..]).1
  {
    PairsNotEmpty(pairs);
    var host, put, probe := pairs[i].0, pairs[i].1, pairs[j].0;
    assert pairs[i] in pairs && pairs[j] in pairs;
    var k :| 0 <= k <= |put| && OpenBefore(PrevAt(None, put, k)) && Extends(probe, put[k..]);
    RegrownIn(host, put, probe, k);
    text, middle := host + probe[|put| - k..], put + probe[|put| - k..];
    OneOldStands(pairs, i, text);
    QuietPrefix(text, pairs, i);
    SuffixIsAccepted(pairs, i + 1);
    assert pairs[i..][0] == pairs[i] && pairs[i..][1..] == pairs[i + 1..];
  }

  lemma {:induction false} SuffixIsAccepted(pairs: seq<Pair>, n: nat)
    requires AcceptedHosts(pairs) && n <= |pairs|
    ensures AcceptedHosts(pairs[n..])
    ensures Apart(pairs) ==> Apart(pairs[n..])
  {
    assert forall p | p in pairs[n..] :: p in pairs;
    hide Contains, Related, Fold, WordHost, Literal;
  }

  lemma AcceptedContainsNone(pairs: seq<Pair>, n: nat, p: Pair)
    requires AcceptedHosts(pairs) && n <= |pairs| && p in pairs
    ensures WordHost(p.0) && NoneContains(pairs[n..], p.0)
  {
    assert forall q | q in pairs[n..] :: q in pairs;
    hide Contains;
  }

  lemma RegrownOldIsLeft(pairs: seq<Pair>, i: nat, j: nat)
    requires AcceptedHosts(pairs) && Apart(pairs) && j <= i < |pairs| && Regrows(pairs[i].1, pairs[j].0)
    ensures forall p | p in pairs :: p.0 != ""
    ensures !LeavesNoOld(pairs)
  {
    var text, middle := RegrownText(pairs, i, j);
    assert pairs[j] in pairs;
    AcceptedContainsNone(pairs, i + 1, pairs[j]);
    LaterIsForeign(pairs, i + 1, j);
    TextKept(middle, pairs[i + 1..], pairs[j].0);
    assert Hits(None, RewriteText(text, pairs).0, pairs[j].0) > 0;
  }

  lemma LaterIsForeign(pairs: seq<Pair>, n: nat, j: nat)
    requires Apart(pairs) && j < n <= |pairs|
    ensures Foreign(pairs[n..], pairs[j].0)
  {
    hide Fold, Extends;
    forall p | p in pairs[n..] ensures Fold(p.0) != Fold(pairs[j].0) && !Related(pairs[j].0, p.0) {
      var m :| 0 <= m < |pairs| - n && pairs[n..][m] == p;
      assert pairs[n + m] == p;
    }
  }

  lemma NamedStaysGone(pairs: seq<Pair>, p: Pair)
    requires p in pairs && WordHost(p.0) && NeverRegrown(pairs)
    ensures StaysGone(pairs, p.0)
  {
    hide Regrows, Fold, Joins, WordHost;
    var j :| 0 <= j < |pairs| && pairs[j] == p;
    forall i | j <= i < |pairs| ensures !Joins(pairs[i].0, pairs[i].1, p.0) { WordIsNeverJoined(pairs[i].0, pairs[i].1, p.0); }
    assert NoneMakesFrom(pairs, j, pairs[j].0);
  }

  lemma NoneContainsOld(pairs: seq<Pair>, p: Pair)
    requires AcceptedPairs(pairs) && p in pairs
    ensures Ended(p.0) && NoneContains(pairs, p.0)
  {
    hide Contains;
  }

  lemma PairsAreNotEmpty(pairs: seq<Pair>)
    requires AcceptedPairs(pairs)
    ensures forall p | p in pairs :: p.0 != ""
  {
  }

  /**
   OLD sides may repeat, be related and hold any characters before their last: no text is left
   with one if each, from some pair that names it on, is not made again.
   */
  lemma EachStaysGone(pairs: seq<Pair>)
    requires AcceptedPairs(pairs) && forall p | p in pairs :: StaysGone(pairs, p.0)
    ensures forall p | p in pairs :: p.0 != ""
    ensures LeavesNoOld(pairs)
  {
    PairsAreNotEmpty(pairs);
    hide AcceptedPairs, StaysGone, NoneContains;
    forall text, p | p in pairs ensures Hits(None, RewriteText(text, pairs).0, p.0) == 0 {
      NoneContainsOld(pairs, p);
      PlacesAfterAll(text, pairs, p.0);
      HitsIfPlaces(None, RewriteText(text, pairs).0, p.0);
    }
  }

  /**
   The condition is exact: for OLD sides of which no two can match at one place, every text is
   left without an OLD if and only if no NEW, from the pair that names an OLD on, regrows it.
   */
  lemma NoOldIsLeftExactly(pairs: seq<Pair>)
    requires AcceptedHosts(pairs) && Apart(pairs)
    ensures forall p | p in pairs :: p.0 != ""
    ensures LeavesNoOld(pairs) <==> NeverRegrown(pairs)
  {
    PairsNotEmpty(pairs);
    if NeverRegrown(pairs) {
      HostsAreAccepted(pairs);
      forall p | p in pairs ensures StaysGone(pairs, p.0) { NamedStaysGone(pairs, p); }
      EachStaysGone(pairs);
    } else {
      var j, i :| 0 <= j <= i < |pairs| && Regrows(pairs[i].1, pairs[j].0);
      RegrownOldIsLeft(pairs, i, j);
    }
  }

  // ---- The number reported ----

  function SumOf(text: string, pairs: seq<Pair>): nat
    requires forall p | p in pairs :: p.0 != ""
  {
    if pairs == [] then 0 else Hits(None, text, pairs[0].0) + SumOf(text, pairs[1..])
  }

  /** No pair's NEW regrows an OLD that a later pair names. */
  ghost predicate RegrownForNoLater(pairs: seq<Pair>) {
    forall l, i | 0 <= l < i < |pairs| :: !Regrows(pairs[l].1, pairs[i].0)
  }

  /** One substitution, seen by the pairs behind it. */
  lemma {:induction false} SumMoves(text: string, pair: Pair, rest: seq<Pair>)
    requires WordHost(pair.0) && Literal(pair.1)
    requires forall p | p in rest :: p.0 != ""
    requires forall p | p in rest :: WordHost(p.0) && !Contains(pair.1, p.0) && Fold(p.0) != Fold(pair.0) && !Related(p.0, pair.0)
    ensures SumOf(Substitute(None, text, pair.0, pair.1), rest) >= SumOf(text, rest)
    ensures (forall p | p in rest :: !Regrows(pair.1, p.0)) ==>
              SumOf(Substitute(None, text, pair.0, pair.1), rest) == SumOf(text, rest)
    decreases |rest|
  {
    if rest != [] {
      assert rest[0] in rest && forall p | p in rest[1..] :: p in rest;
      MakesIfNotHeld((rest[0].0, pair.1), rest[0].0);
      HitsAfter(text, pair, rest[0].0);
      hide WordHost, Literal, Contains, Hits, Related, Fold, Substitute, Brings, Regrows;
      SumMoves(text, pair, rest[1..]);
    }
  }

  lemma FirstIsApart(pairs: seq<Pair>)
    requires AcceptedHosts(pairs) && Apart(pairs) && pairs != []
    ensures WordHost(pairs[0].0) && Literal(pairs[0].1)
    ensures forall p | p in pairs[1..] :: p.0 != ""
    ensures forall p | p in pairs[1..] ::
              WordHost(p.0) && !Contains(pairs[0].1, p.0) && Fold(p.0) != Fold(pairs[0].0) && !Related(p.0, pairs[0].0)
  {
    assert pairs[0] in pairs && forall p | p in pairs[1..] :: p in pairs;
    hide Contains, Literal, Fold, Extends, Word;
    forall p | p in pairs[1..] ensures Fold(p.0) != Fold(pairs[0].0) && !Related(p.0, pairs[0].0) {
      var m :| 0 <= m < |pairs| - 1 && pairs[1..][m] == p;
      assert pairs[m + 1] == p;
    }
  }

  /** Never less is reported than there was, and exactly that unless a NEW regrows a later OLD. */
  lemma {:induction false} TextCount(text: string, pairs: seq<Pair>)
    requires AcceptedHosts(pairs) && Apart(pairs)
    ensures forall p | p in pairs :: p.0 != ""
    ensures RewriteText(text, pairs).1 >= SumOf(text, pairs)
    ensures RegrownForNoLater(pairs) ==> RewriteText(text, pairs).1 == SumOf(text, pairs)
    decreases |pairs|
  {
    PairsNotEmpty(pairs);
    if pairs != [] {
      TailIsAccepted(pairs);
      FirstIsApart(pairs);
      SumMoves(text, pairs[0], pairs[1..]);
      TextCount(Substitute(None, text, pairs[0].0, pairs[0].1), pairs[1..]);
      hide AcceptedHosts, Apart, WordHost, Literal, Contains, Hits, Related, Fold, Substitute, Regrows;
      if RegrownForNoLater(pairs) {
        forall p | p in pairs[1..] ensures !Regrows(pairs[0].1, p.0) {
          var m :| 0 <= m < |pairs| - 1 && pairs[1..][m] == p;
          assert pairs[m + 1] == p;
        }
        forall l, i | 0 <= l < i < |pairs[1..]| ensures !Regrows(pairs[1..][l].1, pairs[1..][i].0) {
          assert pairs[1..][l] == pairs[l + 1] && pairs[1..][i] == pairs[i + 1];
        }
      }
    }
  }

  lemma {:induction false} SumOfOne(text: string, pairs: seq<Pair>, i: nat)
    requires forall p | p in pairs :: p.0 != ""
    requires forall m | 0 <= m < |pairs| :: Hits(None, text, pairs[m].0) == if m == i then 1 else 0
    ensures SumOf(text, pairs) == if i < |pairs| then 1 else 0
    decreases |pairs|
  {
    if pairs != [] {
      hide Hits;
      forall m | 0 <= m < |pairs[1..]|
        ensures Hits(None, text, pairs[1..][m].0) == (if m + 1 == i then 1 else 0) {
        assert pairs[1..][m] == pairs[m + 1];
      }
      SumOfOne(text, pairs[1..], if i == 0 then |pairs| else i - 1);
    }
  }

  lemma {:induction false} SumHasEach(text: string, pairs: seq<Pair>, i: nat)
    requires forall p | p in pairs :: p.0 != ""
    requires i < |pairs|
    ensures SumOf(text, pairs) >= Hits(None, text, pairs[i].0)
    decreases |pairs|
  {
    if i > 0 {
      assert pairs[1..][i - 1] == pairs[i];
      SumHasEach(text, pairs[1..], i - 1);
    }
  }

  lemma SomethingIsReported(text: string, pairs: seq<Pair>, i: nat)
    requires AcceptedHosts(pairs) && Apart(pairs) && i < |pairs|
    ensures forall p | p in pairs :: p.0 != ""
    ensures Hits(None, text, pairs[i].0) > 0 ==> RewriteText(text, pairs).1 > 0
  {
    TextCount(text, pairs);
    SumHasEach(text, pairs, i);
  }

  lemma OneIsCounted(text: string, pairs: seq<Pair>, l: nat)
    requires AcceptedHosts(pairs) && Apart(pairs) && l < |pairs|
    requires WordHost(text) && MatchHere(None, text, pairs[l].0)
    ensures forall p | p in pairs :: p.0 != ""
    ensures SumOf(text, pairs) == 1
  {
    PairsNotEmpty(pairs);
    OneOldStands(pairs, l, text);
    SumOfOne(text, pairs, l);
  }

  /** Where a NEW regrows a later OLD, some text has more replaced than it held. */
  lemma RegrownIsCountedTwice(pairs: seq<Pair>, l: nat, i: nat) returns (text: string)
    requires AcceptedHosts(pairs) && Apart(pairs) && l < i < |pairs| && Regrows(pairs[l].1, pairs[i].0)
    ensures forall p | p in pairs :: p.0 != ""
    ensures RewriteText(text, pairs).1 > SumOf(text, pairs)
  {
    hide AcceptedHosts, Apart, Regrows, Hits, MatchHere, RewriteText, SumOf, WordHost;
    var middle;
    text, middle := RegrownText(pairs, l, i);
    OneIsCounted(text, pairs, l);
    SuffixIsAccepted(pairs, l + 1);
    assert pairs[l + 1..][i - l - 1] == pairs[i];
    SomethingIsReported(middle, pairs[l + 1..], i - l - 1);
  }

  // ---- Trees ----

  /** Same constructors, same keys, same leaves, except for the text of string leaves. */
  ghost predicate SameShape(a: Tree, b: Tree)
    decreases a
  {
    match a
    case Text(_) => b.Text?
    case Items(items) =>
      b.Items? && |b.items| == |items| && forall i | 0 <= i < |items| :: SameShape(items[i], b.items[i])
    case Members(members) =>
      b.Members? && |b.members| == |members|
      && forall i | 0 <= i < |members| ::
           members[i].key == b.members[i].key && SameShape(members[i].value, b.members[i].value)
    case _ => a == b
  }

  ghost predicate EachRewritten(leaves: seq<string>, rewritten: seq<string>, pairs: seq<Pair>)
    requires forall p | p in pairs :: p.0 != ""
  {
    |rewritten| == |leaves| && forall i | 0 <= i < |leaves| :: rewritten[i] == RewriteText(leaves[i], pairs).0
  }

  function SumReported(leaves: seq<string>, pairs: seq<Pair>): nat
    requires forall p | p in pairs :: p.0 != ""
  {
    if leaves == [] then 0 else RewriteText(leaves[0], pairs).1 + SumReported(leaves[1..], pairs)
  }

  lemma {:induction false} SumReportedConcat(a: seq<string>, b: seq<string>, pairs: seq<Pair>)
    requires forall p | p in pairs :: p.0 != ""
    ensures SumReported(a + b, pairs) == SumReported(a, pairs) + SumReported(b, pairs)
  {
    if a == [] {
      assert a + b == b;
    } else {
      assert (a + b)[1..] == a[1..] + b;
      SumReportedConcat(a[1..], b, pairs);
    }
  }

  /** Rewriting a tree rewrites its string leaves one by one, and nothing else. */
  lemma {:induction false} TreeRewritten(value: Tree, pairs: seq<Pair>)
    requires forall p | p in pairs :: p.0 != ""
    ensures SameShape(value, RewriteStrings(value, pairs).0)
    ensures EachRewritten(Leaves(value), Leaves(RewriteStrings(value, pairs).0), pairs)
    ensures RewriteStrings(value, pairs).1 == SumReported(Leaves(value), pairs)
    decreases value, 0
  {
    match value
    case Text(text) =>
      assert SumReported([text], pairs) == RewriteText(text, pairs).1 + SumReported([text][1..], pairs);
    case Items(items) => ItemsRewritten(items, pairs);
    case Members(members) => MembersRewritten(members, pairs);
    case _ =>
  }

  lemma {:induction false} ItemsRewritten(items: seq<Tree>, pairs: seq<Pair>)
    requires forall p | p in pairs :: p.0 != ""
    ensures var out := RewriteItems(items, pairs);
            |out.0| == |items| && (forall i | 0 <= i < |items| :: SameShape(items[i], out.0[i]))
            && EachRewritten(ItemLeaves(items), ItemLeaves(out.0), pairs)
            && out.1 == SumReported(ItemLeaves(items), pairs)
    decreases items, 1
  {
    if items != [] {
      TreeRewritten(items[0], pairs);
      ItemsRewritten(items[1..], pairs);
      SumReportedConcat(Leaves(items[0]), ItemLeaves(items[1..]), pairs);
      var out := RewriteItems(items, pairs).0;
      assert out[1..] == RewriteItems(items[1..], pairs).0;
      forall i | 0 <= i < |items| ensures SameShape(items[i], out[i]) {
        if i > 0 { assert items[1..][i - 1] == items[i] && out[1..][i - 1] == out[i]; }
      }
    }
  }

  lemma {:induction false} MembersRewritten(members: seq<Member>, pairs: seq<Pair>)
    requires forall p | p in pairs :: p.0 != ""
    ensures var out := RewriteMembers(members, pairs);
            |out.0| == |members|
            && (forall i | 0 <= i < |members| ::
                  members[i].key == out.0[i].key && SameShape(members[i].value, out.0[i].value))
            && EachRewritten(MemberLeaves(members), MemberLeaves(out.0), pairs)
            && out.1 == SumReported(MemberLeaves(members), pairs)
    decreases members, 1
  {
    if members != [] {
      TreeRewritten(members[0].value, pairs);
      MembersRewritten(members[1..], pairs);
      SumReportedConcat(Leaves(members[0].value), MemberLeaves(members[1..]), pairs);
      var out := RewriteMembers(members, pairs).0;
      assert out[1..] == RewriteMembers(members[1..], pairs).0;
      forall i | 0 <= i < |members|
        ensures members[i].key == out[i].key && SameShape(members[i].value, out[i].value) {
        if i > 0 { assert members[1..][i - 1] == members[i] && out[1..][i - 1] == out[i]; }
      }
    }
  }

  lemma {:induction false} SumHitsGone(leaves: seq<string>, rewritten: seq<string>, pairs: seq<Pair>, host: string)
    requires AcceptedPairs(pairs) && Ended(host) && NoneContains(pairs, host) && StaysGone(pairs, host)
    requires forall p | p in pairs :: p.0 != ""
    requires EachRewritten(leaves, rewritten, pairs)
    ensures SumHits(rewritten, host) == 0
  {
    if leaves != [] {
      PlacesAfterAll(leaves[0], pairs, host);
      HitsIfPlaces(None, rewritten[0], host);
      hide AcceptedPairs, NoneContains, Hits, Places, StaysGone, RewriteText;
      SumHitsGone(leaves[1..], rewritten[1..], pairs, host);
    }
  }

  lemma {:induction false} SumHitsKept(leaves: seq<string>, rewritten: seq<string>, pairs: seq<Pair>, host: string)
    requires AcceptedHosts(pairs) && WordHost(host) && NoneContains(pairs, host)
    requires Foreign(pairs, host) && NoneMakesFrom(pairs, 0, host)
    requires EachRewritten(leaves, rewritten, pairs)
    ensures SumHits(rewritten, host) == SumHits(leaves, host)
  {
    if leaves != [] {
      HostsAreAccepted(pairs);
      WordIsEnded(host);
      PlacesAfterAll(leaves[0], pairs, host);
      TextKept(leaves[0], pairs, host);
      HitsArePlaces(None, leaves[0], host);
      HitsArePlaces(None, rewritten[0], host);
      hide AcceptedPairs, AcceptedHosts, NoneContains, Hits, Places, StaysGone, NoneMakesFrom, Foreign, RewriteText, WordHost;
      SumHitsKept(leaves[1..], rewritten[1..], pairs, host);
    }
  }

  /**
   Over a whole tree: a host is gone if a pair names it and neither that pair's NEW nor a later
   one makes it again.
   */
  lemma NoOldIsLeft(value: Tree, pairs: seq<Pair>, host: string)
    requires AcceptedPairs(pairs) && Ended(host) && NoneContains(pairs, host) && StaysGone(pairs, host)
    ensures forall p | p in pairs :: p.0 != ""
    ensures CountLiteral(RewriteStrings(value, pairs).0, host) == 0
  {
    PairsAreNotEmpty(pairs);
    TreeRewritten(value, pairs);
    SumHitsGone(Leaves(value), Leaves(RewriteStrings(value, pairs).0), pairs, host);
  }

  /** Over a whole tree: a host unrelated to every OLD, which no NEW makes, is found exactly as often as before. */
  lemma OtherHostsStay(value: Tree, pairs: seq<Pair>, host: string)
    requires AcceptedHosts(pairs) && WordHost(host) && NoneContains(pairs, host)
    requires Foreign(pairs, host) && NoneMakesFrom(pairs, 0, host)
    ensures forall p | p in pairs :: p.0 != ""
    ensures CountLiteral(RewriteStrings(value, pairs).0, host) == CountLiteral(value, host)
  {
    PairsNotEmpty(pairs);
    TreeRewritten(value, pairs);
    SumHitsKept(Leaves(value), Leaves(RewriteStrings(value, pairs).0), pairs, host);
  }

  function SumCounts(value: Tree, pairs: seq<Pair>): nat
    requires forall p | p in pairs :: p.0 != ""
  {
    if pairs == [] then 0 else CountLiteral(value, pairs[0].0) + SumCounts(value, pairs[1..])
  }

  function SumOverLeaves(leaves: seq<string>, pairs: seq<Pair>): nat
    requires forall p | p in pairs :: p.0 != ""
  {
    if pairs == [] then 0 else SumHits(leaves, pairs[0].0) + SumOverLeaves(leaves, pairs[1..])
  }

  lemma {:induction false} SumOverOneMore(text: string, leaves: seq<string>, pairs: seq<Pair>)
    requires forall p | p in pairs :: p.0 != ""
    ensures SumOverLeaves([text] + leaves, pairs) == SumOf(text, pairs) + SumOverLeaves(leaves, pairs)
    decreases |pairs|
  {
    if pairs != [] {
      SumOverOneMore(text, leaves, pairs[1..]);
      assert ([text] + leaves)[1..] == leaves;
    }
  }

  lemma {:induction false} SumOverNone(pairs: seq<Pair>)
    requires forall p | p in pairs :: p.0 != ""
    ensures SumOverLeaves([], pairs) == 0
  {
    if pairs != [] { SumOverNone(pairs[1..]); }
  }

  lemma {:induction false} ReportedOverLeaves(leaves: seq<string>, pairs: seq<Pair>)
    requires AcceptedHosts(pairs) && Apart(pairs) && RegrownForNoLater(pairs)
    ensures SumReported(leaves, pairs) == SumOverLeaves(leaves, pairs)
    decreases |leaves|
  {
    if leaves == [] {
      SumOverNone(pairs);
    } else {
      TextCount(leaves[0], pairs);
      ReportedOverLeaves(leaves[1..], pairs);
      SumOverOneMore(leaves[0], leaves[1..], pairs);
      assert leaves == [leaves[0]] + leaves[1..];
    }
  }

  lemma {:induction false} SumCountsIsOverLeaves(value: Tree, pairs: seq<Pair>)
    requires forall p | p in pairs :: p.0 != ""
    ensures SumCounts(value, pairs) == SumOverLeaves(Leaves(value), pairs)
    decreases |pairs|
  {
    if pairs != [] { SumCountsIsOverLeaves(value, pairs[1..]); }
  }

  ghost predicate ReportsTheCount(pairs: seq<Pair>)
    requires forall p | p in pairs :: p.0 != ""
  {
    forall value :: RewriteStrings(value, pairs).1 == SumCounts(value, pairs)
  }

  /**
   What import reports is what inspect counts, the sum over the pairs of the occurrences
   before, for every tree if and only if no NEW regrows an OLD that a later pair names.
   */
  lemma ReportIsTheCountExactly(pairs: seq<Pair>)
    requires AcceptedHosts(pairs) && Apart(pairs)
    ensures forall p | p in pairs :: p.0 != ""
    ensures ReportsTheCount(pairs) <==> RegrownForNoLater(pairs)
  {
    PairsNotEmpty(pairs);
    hide AcceptedHosts, Apart, Contains;
    if RegrownForNoLater(pairs) {
      forall value ensures RewriteStrings(value, pairs).1 == SumCounts(value, pairs) {
        TreeRewritten(value, pairs);
        ReportedOverLeaves(Leaves(value), pairs);
        SumCountsIsOverLeaves(value, pairs);
      }
    } else {
      var l, i :| 0 <= l < i < |pairs| && Regrows(pairs[l].1, pairs[i].0);
      var text := RegrownIsCountedTwice(pairs, l, i);
      SumCountsOfText(text, pairs);
      assert RewriteStrings(Text(text), pairs).1 != SumCounts(Text(text), pairs);
    }
  }

  lemma SumCountsOfText(text: string, pairs: seq<Pair>)
    requires forall p | p in pairs :: p.0 != ""
    ensures SumCounts(Text(text), pairs) == SumOf(text, pairs)
  {
    SumCountsIsOverLeaves(Text(text), pairs);
    SumOverOneMore(text, [], pairs);
    SumOverNone(pairs);
    assert Leaves(Text(text)) == [text] + [];
  }

  // ---- A second rewrite ----

  /** A rewrite that finds nothing changes nothing, and only then is nothing reported. */
  lemma {:induction false} QuietText(text: string, pairs: seq<Pair>)
    requires forall p | p in pairs :: p.0 != ""
    ensures RewriteText(text, pairs) == (text, 0) <==> forall p | p in pairs :: Hits(None, text, p.0) == 0
    ensures RewriteText(text, pairs).1 == 0 ==> RewriteText(text, pairs).0 == text
    decreases |pairs|
  {
    if pairs != [] {
      assert pairs[0] in pairs && forall p | p in pairs[1..] :: p in pairs;
      if Hits(None, text, pairs[0].0) == 0 {
        NoHitsNoChange(None, text, pairs[0].0, pairs[0].1);
        QuietText(text, pairs[1..]);
      }
    }
  }

  /** After one rewrite, a second one is the identity and reports nothing. */
  ghost predicate RestsAfterOne(value: Tree, pairs: seq<Pair>)
    requires forall p | p in pairs :: p.0 != ""
  {
    RewriteStrings(RewriteStrings(value, pairs).0, pairs) == (RewriteStrings(value, pairs).0, 0)
  }

  lemma TextRests(text: string, pairs: seq<Pair>)
    requires forall p | p in pairs :: p.0 != ""
    requires LeavesNoOld(pairs)
    ensures RestsAfterOne(Text(text), pairs)
  {
    QuietText(RewriteText(text, pairs).0, pairs);
  }

  lemma {:induction false} TreeRests(value: Tree, pairs: seq<Pair>)
    requires forall p | p in pairs :: p.0 != ""
    requires LeavesNoOld(pairs)
    ensures RestsAfterOne(value, pairs)
    decreases value, 0
  {
    hide LeavesNoOld;
    match value
    case Text(text) => TextRests(text, pairs);
    case Items(items) => ItemsRest(items, pairs);
    case Members(members) => MembersRest(members, pairs);
    case _ =>
  }

  lemma {:induction false} ItemsRest(items: seq<Tree>, pairs: seq<Pair>)
    requires forall p | p in pairs :: p.0 != ""
    requires LeavesNoOld(pairs)
    ensures RewriteItems(RewriteItems(items, pairs).0, pairs) == (RewriteItems(items, pairs).0, 0)
    decreases items, 1
  {
    hide LeavesNoOld;
    if items != [] {
      TreeRests(items[0], pairs);
      ItemsRest(items[1..], pairs);
      assert RewriteItems(items, pairs).0[1..] == RewriteItems(items[1..], pairs).0;
    }
  }

  lemma {:induction false} MembersRest(members: seq<Member>, pairs: seq<Pair>)
    requires forall p | p in pairs :: p.0 != ""
    requires LeavesNoOld(pairs)
    ensures RewriteMembers(RewriteMembers(members, pairs).0, pairs) == (RewriteMembers(members, pairs).0, 0)
    decreases members, 1
  {
    hide LeavesNoOld;
    if members != [] {
      TreeRests(members[0].value, pairs);
      MembersRest(members[1..], pairs);
      assert RewriteMembers(members, pairs).0[1..] == RewriteMembers(members[1..], pairs).0;
    }
  }

  /** A second rewrite changes and reports nothing, whatever the tree, exactly when no text is left with an OLD. */
  lemma RestsExactlyWithoutOld(pairs: seq<Pair>)
    requires forall p | p in pairs :: p.0 != ""
    ensures (forall value :: RestsAfterOne(value, pairs)) <==> LeavesNoOld(pairs)
  {
    if LeavesNoOld(pairs) {
      forall value ensures RestsAfterOne(value, pairs) { TreeRests(value, pairs); }
    }
    if forall value :: RestsAfterOne(value, pairs) {
      forall text, p | p in pairs ensures Hits(None, RewriteText(text, pairs).0, p.0) == 0 {
        assert RestsAfterOne(Text(text), pairs);
        QuietText(RewriteText(text, pairs).0, pairs);
      }
    }
  }

  /** The second rewrite, exactly: it rests on every tree if and only if no NEW regrows an OLD named so far. */
  lemma RewriteTwiceExactly(pairs: seq<Pair>)
    requires AcceptedHosts(pairs) && Apart(pairs)
    ensures forall p | p in pairs :: p.0 != ""
    ensures (forall value :: RestsAfterOne(value, pairs)) <==> NeverRegrown(pairs)
  {
    NoOldIsLeftExactly(pairs);
    hide LeavesNoOld, NeverRegrown, RestsAfterOne;
    RestsExactlyWithoutOld(pairs);
  }

  // ---- Well-formed hosts, and pairs that fail ----

  /** Alphanumeric at both ends and after every dot. */
  predicate WellFormed(host: string) {
    && WordHost(host) && IsAlnum(host[0]) && IsAlnum(host[|host| - 1])
    && forall i | 0 <= i < |host| - 1 && host[i] == '.' :: IsAlnum(host[i + 1])
  }

  /** Nothing goes on behind a stem to a well-formed host, so no NEW can regrow one. */
  lemma WellFormedIsNeverRegrown(host: string, stem: string)
    requires WellFormed(host)
    ensures !Extends(host, stem)
    ensures !Regrows(stem, host)
  {
    forall other: string ensures !Extends(host, other) {
      if |other| < |host| { assert host[|other|] in host; }
    }
  }

  /** The accepted pair x.=x turns "x.." into "x.", which holds OLD again. */
  lemma TrailingDotComesBack()
    ensures Unchained([("x.", "x")]) && Regrows("x", "x.")
    ensures Substitute(None, "x..", "x.", "x") == "x."
    ensures Hits(None, "x.", "x.") == 1
  {
    assert "x."[..1] == "x" && "x."[1..] == "." && "x"[0..] == "x";
    assert OpenBefore(PrevAt(None, "x", 0)) && Extends("x.", "x"[0..]);
    assert "x.."[..2] == "x." && "x.."[2..] == ".";
    assert MatchHere(None, "x..", "x.");
    assert !MatchHere(Some('.'), ".", "x.") && "."[1..] == "";
    assert Substitute(Some('.'), ".", "x.", "x") == ".";
    assert "x."[..2] == "x." && "x."[2..] == "";
    assert MatchHere(None, "x.", "x.");
    assert Hits(Some('.'), "", "x.") == 0;
    assert "x"[1..] == "" && Hits(None, "x", "x.") == 0;
  }

  /** An OLD with other characters can come back without a dot: the accepted pair x/=x turns "x//" into "x/". */
  lemma SlashComesBack()
    ensures Unchained([("x/", "x")]) && !WordHost("x/")
    ensures Substitute(None, "x//", "x/", "x") == "x/"
    ensures Hits(None, "x/", "x/") == 1
  {
    assert "x/"[1] in "x/";
    assert "x//"[..2] == "x/" && "x//"[2..] == "/";
    assert MatchHere(None, "x//", "x/");
    assert !MatchHere(Some('/'), "/", "x/") && "/"[1..] == "";
    assert Substitute(Some('/'), "/", "x/", "x") == "/";
    assert "x/"[..2] == "x/" && "x/"[2..] == "";
    assert MatchHere(None, "x/", "x/");
    assert Hits(Some('/'), "", "x/") == 0;
    assert "x"[1..] == "" && Hits(None, "x", "x/") == 0;
  }
}
