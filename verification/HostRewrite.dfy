/**
 Whole-word host rewriting over JSON trees, as `scripts/n8n_migrate.py` does it:
 `_literal_re` as a matcher, `subn` and `findall` as left-to-right scans.
 */
module HostRewrite {
  import opened Prelude
  import opened Strings

  // ---- The pattern ----

  function Fold(text: string): string {
    seq(|text|, i requires 0 <= i < |text| => Lower(text[i]))
  }

  predicate Word(c: char) {
    IsAlnum(c) || c == '.' || c == '-'
  }

  /** (?<![A-Za-z0-9.@-]) */
  predicate OpenBefore(prev: Option<char>) {
    prev.None? || (!Word(prev.value) && prev.value != '@')
  }

  /** (?![A-Za-z0-9-]|\.[A-Za-z0-9]) */
  predicate OpenAfter(rest: string) {
    rest == "" || (!IsAlnum(rest[0]) && rest[0] != '-' && !(rest[0] == '.' && |rest| > 1 && IsAlnum(rest[1])))
  }

  /** The pattern for a host matches at the start of `rest`, which `prev` precedes. */
  predicate MatchHere(prev: Option<char>, rest: string, host: string) {
    |host| <= |rest| && Fold(rest[..|host|]) == Fold(host) && OpenBefore(prev) && OpenAfter(rest[|host|..])
  }

  /**
   The host stands at that place of the text: it is there, but for case, with no letter, digit, dot,
   hyphen or at sign before it, and behind it no letter, digit, hyphen, or dot that starts a label.
   */
  ghost predicate Stands(text: string, at: nat, host: string) {
    var end := at + |host|;
    && end <= |text|
    && (forall j | 0 <= j < |host| :: Lower(text[at + j]) == Lower(host[j]))
    && (at > 0 ==> !IsAlnum(text[at - 1]) && text[at - 1] != '.' && text[at - 1] != '-' && text[at - 1] != '@')
    && (end < |text| ==> !IsAlnum(text[end]) && text[end] != '-')
    && (end + 1 < |text| ==> text[end] != '.' || !IsAlnum(text[end + 1]))
  }

  lemma MatchIsStanding(text: string, at: nat, host: string)
    requires at <= |text|
    ensures MatchHere(if at == 0 then None else Some(text[at - 1]), text[at..], host) <==> Stands(text, at, host)
  {
    var rest := text[at..];
    if |host| <= |rest| {
      var part := rest[..|host|];
      assert |Fold(part)| == |Fold(host)|;
      assert forall j | 0 <= j < |host| :: Fold(part)[j] == Lower(text[at + j]) && Fold(host)[j] == Lower(host[j]);
      var after := rest[|host|..];
      assert |after| > 0 ==> after[0] == text[at + |host|];
      assert |after| > 1 ==> after[1] == text[at + |host| + 1];
    }
  }

  /** Pattern.sub over `rest`, scanning left to right. */
  function Substitute(prev: Option<char>, rest: string, host: string, put: string): string
    requires host != ""
    decreases |rest|
  {
    if rest == "" then ""
    else if MatchHere(prev, rest, host)
    then put + Substitute(Some(rest[|host| - 1]), rest[|host|..], host, put)
    else [rest[0]] + Substitute(Some(rest[0]), rest[1..], host, put)
  }

  /** The number of substitutions, which is also len(Pattern.findall(rest)). */
  function Hits(prev: Option<char>, rest: string, host: string): nat
    requires host != ""
    decreases |rest|
  {
    if rest == "" then 0
    else if MatchHere(prev, rest, host) then 1 + Hits(Some(rest[|host| - 1]), rest[|host|..], host)
    else Hits(Some(rest[0]), rest[1..], host)
  }

  /** The positions at which the pattern matches, overlapping or not. */
  function Places(prev: Option<char>, rest: string, host: string): nat
    decreases |rest|
  {
    if rest == "" then 0
    else (if MatchHere(prev, rest, host) then 1 else 0) + Places(Some(rest[0]), rest[1..], host)
  }

  // ---- JSON trees, with the order of their members ----

  datatype Tree =
    | Null
    | Flag(flag: bool)
    | Number(number: int)
    | Text(text: string)
    | Items(items: seq<Tree>)
    | Members(members: seq<Member>)

  datatype Member = Member(key: string, value: Tree)

  type Pair = (string, string)

  function RewriteText(text: string, pairs: seq<Pair>): (string, nat)
    requires forall p | p in pairs :: p.0 != ""
    decreases |pairs|
  {
    if pairs == [] then (text, 0)
    else
      var rest := RewriteText(Substitute(None, text, pairs[0].0, pairs[0].1), pairs[1..]);
      (rest.0, Hits(None, text, pairs[0].0) + rest.1)
  }

  function RewriteStrings(value: Tree, pairs: seq<Pair>): (Tree, nat)
    requires forall p | p in pairs :: p.0 != ""
    decreases value, 0
  {
    match value
    case Text(text) => var r := RewriteText(text, pairs); (Text(r.0), r.1)
    case Items(items) => var r := RewriteItems(items, pairs); (Items(r.0), r.1)
    case Members(members) => var r := RewriteMembers(members, pairs); (Members(r.0), r.1)
    case _ => (value, 0)
  }

  function RewriteItems(items: seq<Tree>, pairs: seq<Pair>): (seq<Tree>, nat)
    requires forall p | p in pairs :: p.0 != ""
    decreases items, 1
  {
    if items == [] then ([], 0)
    else
      var first, rest := RewriteStrings(items[0], pairs), RewriteItems(items[1..], pairs);
      ([first.0] + rest.0, first.1 + rest.1)
  }

  function RewriteMembers(members: seq<Member>, pairs: seq<Pair>): (seq<Member>, nat)
    requires forall p | p in pairs :: p.0 != ""
    decreases members, 1
  {
    if members == [] then ([], 0)
    else
      var first, rest := RewriteStrings(members[0].value, pairs), RewriteMembers(members[1..], pairs);
      ([Member(members[0].key, first.0)] + rest.0, first.1 + rest.1)
  }

  /** `_strings`: every string leaf in order; no key is among them. */
  function Leaves(value: Tree): seq<string>
    decreases value, 0
  {
    match value
    case Text(text) => [text]
    case Items(items) => ItemLeaves(items)
    case Members(members) => MemberLeaves(members)
    case _ => []
  }

  function ItemLeaves(items: seq<Tree>): seq<string>
    decreases items, 1
  {
    if items == [] then [] else Leaves(items[0]) + ItemLeaves(items[1..])
  }

  function MemberLeaves(members: seq<Member>): seq<string>
    decreases members, 1
  {
    if members == [] then [] else Leaves(members[0].value) + MemberLeaves(members[1..])
  }

  function SumHits(leaves: seq<string>, host: string): nat
    requires host != ""
  {
    if leaves == [] then 0 else Hits(None, leaves[0], host) + SumHits(leaves[1..], host)
  }

  function CountLiteral(value: Tree, host: string): nat
    requires host != ""
  {
    SumHits(Leaves(value), host)
  }

  // ---- The accepted command line ----

  datatype Parsed = Accepted(pairs: seq<Pair>) | Refused

  function IndexOfEquals(item: string): (i: nat)
    ensures i <= |item|
    ensures i < |item| ==> item[i] == '='
    ensures forall j | 0 <= j < i :: item[j] != '='
  {
    if item == "" || item[0] == '=' then 0 else 1 + IndexOfEquals(item[1..])
  }

  /** One OLD=NEW argument: split at the first '=', both sides stripped and present. */
  function ParseItem(item: string): (pair: Option<Pair>)
    ensures pair.Some? ==> pair.value.0 != "" && pair.value.1 != ""
  {
    var i := IndexOfEquals(item);
    if i == |item| then None
    else
      var before, after := Strip(item[..i], Blank), Strip(item[i + 1..], Blank);
      if before == "" || after == "" then None else Some((before, after))
  }

  predicate Contains(text: string, host: string)
    requires host != ""
  {
    Hits(None, text, host) > 0
  }

  /** The first '=' divides the argument; the pair has what is before and behind it, stripped, neither blank. */
  ghost predicate Reads(item: string, pair: Pair) {
    && pair.0 != "" && pair.1 != ""
    && exists left, right | item == left + "=" + right && '=' !in left ::
         Stripped(left, Blank, pair.0) && Stripped(right, Blank, pair.1)
  }

  lemma ItemReads(item: string, pair: Pair)
    ensures ParseItem(item) == Some(pair) <==> Reads(item, pair)
  {
    var i := IndexOfEquals(item);
    if i < |item| {
      assert item == item[..i] + "=" + item[i + 1..] && '=' !in item[..i];
      StripIs(item[..i], Blank, pair.0);
      StripIs(item[i + 1..], Blank, pair.1);
    }
    forall left, right | item == left + "=" + right && '=' !in left
      ensures |left| == i < |item| && left == item[..i] && right == item[i + 1..]
    {
      assert item[|left|] == '=' && forall j | 0 <= j < |left| :: item[j] == left[j];
    }
  }

  lemma {:induction false} HitsFromAre(text: string, at: nat, host: string)
    requires host != "" && at <= |text|
    ensures Hits(if at == 0 then None else Some(text[at - 1]), text[at..], host) > 0
       <==> exists i: nat | at <= i :: Stands(text, i, host)
    decreases |text| - at
  {
    MatchIsStanding(text, at, host);
    if at < |text| {
      assert text[at..][1..] == text[at + 1..];
      HitsFromAre(text, at + 1, host);
    }
  }

  lemma ContainsIsStanding(text: string, host: string)
    requires host != ""
    ensures Contains(text, host) <==> exists i :: Stands(text, i, host)
  {
    assert text[0..] == text;
    HitsFromAre(text, 0, host);
  }

  /** No NEW holds any OLD as a whole host. */
  predicate Unchained(pairs: seq<Pair>) {
    forall p, q | p in pairs && q in pairs :: q.0 != "" ==> !Contains(p.1, q.0)
  }

  lemma ArgumentsRead(raw: seq<string>)
    ensures forall item, pair :: Reads(item, pair) <==> ParseItem(item) == Some(pair)
    ensures forall item :: (exists pair :: Reads(item, pair)) <==> ParseItem(item).Some?
    ensures forall text, host | host != "" :: Contains(text, host) <==> exists i :: Stands(text, i, host)
  {
    forall item, pair { ItemReads(item, pair); }
    forall item ensures (exists pair :: Reads(item, pair)) <==> ParseItem(item).Some? {
      if ParseItem(item).Some? { assert Reads(item, ParseItem(item).value); }
    }
    forall text, host | host != "" { ContainsIsStanding(text, host); }
  }

  method ParsePairs(raw: seq<string>) returns (parsed: Parsed)
    ensures parsed.Accepted? <==>
      (forall item | item in raw :: ParseItem(item).Some?)
      && Unchained(seq(|raw|, i requires 0 <= i < |raw| =>
                              if ParseItem(raw[i]).Some? then ParseItem(raw[i]).value else ("", "")))
    ensures parsed.Accepted? ==>
      |parsed.pairs| == |raw| && Unchained(parsed.pairs)
      && forall i | 0 <= i < |raw| :: ParseItem(raw[i]) == Some(parsed.pairs[i])
    // The same by the characters of the arguments.
    ensures parsed.Accepted? ==>
      |parsed.pairs| == |raw| && forall i | 0 <= i < |raw| :: Reads(raw[i], parsed.pairs[i])
    ensures parsed.Accepted? <==>
      && (forall item | item in raw :: exists pair :: Reads(item, pair))
      && forall item, other, p, q | item in raw && other in raw && Reads(item, p) && Reads(other, q) ::
           forall i :: !Stands(p.1, i, q.0)
  {
    ArgumentsRead(raw);
    hide Contains, ParseItem, Reads, Stands;
    var pairs: seq<Pair> := [];
    for n := 0 to |raw|
      invariant |pairs| == n
      invariant forall i | 0 <= i < n :: ParseItem(raw[i]) == Some(pairs[i])
    {
      var pair := ParseItem(raw[n]);
      if pair.None? {
        assert raw[n] in raw;
        return Refused;
      }
      pairs := pairs + [pair.value];
    }
    assert pairs == seq(|raw|, i requires 0 <= i < |raw| =>
                               if ParseItem(raw[i]).Some? then ParseItem(raw[i]).value else ("", ""));
    for n := 0 to |pairs|
      invariant forall i, j | 0 <= i < n && 0 <= j < |pairs| :: pairs[j].0 != "" ==> !Contains(pairs[i].1, pairs[j].0)
    {
      for k := 0 to |pairs|
        invariant forall j | 0 <= j < k :: pairs[j].0 != "" ==> !Contains(pairs[n].1, pairs[j].0)
      {
        if pairs[k].0 != "" && Contains(pairs[n].1, pairs[k].0) {
          assert pairs[n] in pairs && pairs[k] in pairs;
          return Refused;
        }
      }
    }
    parsed := Accepted(pairs);
  }
}
