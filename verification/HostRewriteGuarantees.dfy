/**
 What one host substitution does to the occurrences of any host, for hosts made of word
 characters: letters, digits, dots and hyphens.

 A host stands at a place of a text when it matches there, but for case, with no word character and
 no at sign before it, and behind it no letter, digit or hyphen and no dot that starts a label. The
 scan of the substitution takes the first place it meets and goes on
 behind it. A place of the result comes from a place of the text, or NEW has made it.
 */
module HostRewriteGuarantees {
  import opened Prelude
  import opened Strings
  import opened HostRewrite

  predicate WordHost(host: string) {
    host != "" && forall c | c in host :: Word(c)
  }

  /** A NEW that is inserted as it is: a backslash would be read as an escape. */
  predicate Literal(put: string) {
    put != "" && '\\' !in put
  }

  /** A longer host that goes on, behind the stem, with a dot that starts no further label. */
  predicate Extends(host: string, stem: string) {
    |stem| < |host| && Fold(host[..|stem|]) == Fold(stem) && OpenAfter(host[|stem|..])
  }

  predicate Related(a: string, b: string) {
    Extends(a, b) || Extends(b, a)
  }

  function PrevAt(prev: Option<char>, text: string, k: nat): Option<char>
    requires k <= |text|
  {
    if k == 0 then prev else Some(text[k - 1])
  }

  /** NEW ends in a stem of the host: with the dots that may follow it in the text it can make the host. */
  predicate Regrows(put: string, host: string) {
    exists k | 0 <= k <= |put| :: OpenBefore(PrevAt(None, put, k)) && Extends(host, put[k..])
  }

  lemma FoldAt(a: string, b: string, i: nat)
    requires Fold(a) == Fold(b) && (i < |a| || i < |b|)
    ensures |a| == |b| && Lower(a[i]) == Lower(b[i])
    ensures (IsAlnum(a[i]) <==> IsAlnum(b[i])) && (Word(a[i]) <==> Word(b[i]))
    ensures (a[i] == '.' <==> b[i] == '.') && (a[i] == '-' <==> b[i] == '-') && (a[i] == '@' <==> b[i] == '@')
  {
    assert |Fold(a)| == |a| && |Fold(b)| == |b|;
    assert Fold(a)[i] == Fold(b)[i];
  }

  lemma FoldKeepsWord(a: string, b: string)
    requires Fold(a) == Fold(b) && WordHost(b)
    ensures WordHost(a) && |a| == |b|
  {
    assert |Fold(a)| == |a| && |Fold(b)| == |b|;
    forall i | 0 <= i < |a| ensures Word(a[i]) {
      assert b[i] in b;
      FoldAt(a, b, i);
    }
  }

  lemma FoldPart(a: string, b: string, i: nat, j: nat)
    requires Fold(a) == Fold(b) && i <= j <= |a|
    ensures |a| == |b| && Fold(a[i..j]) == Fold(b[i..j])
  {
    assert |Fold(a)| == |a| && |Fold(b)| == |b|;
    assert Fold(a[i..j]) == Fold(a)[i..j] && Fold(b[i..j]) == Fold(b)[i..j];
  }

  /** Whether a host may end somewhere does not depend on the case of what follows. */
  lemma FoldKeepsOpen(a: string, b: string)
    requires Fold(a) == Fold(b)
    ensures OpenAfter(a) <==> OpenAfter(b)
  {
    assert |Fold(a)| == |a| && |Fold(b)| == |b|;
    if a != "" { FoldAt(a, b, 0); }
    if |a| > 1 { FoldAt(a, b, 1); }
  }

  /** A place is open if it is open before as many of its characters as one may look at. */
  lemma OpenPrefix(text: string, n: nat)
    requires OpenAfter(text) && n <= |text|
    ensures OpenAfter(text[..n])
  {
  }

  /** No match begins right after a word character. */
  lemma NoMatchAfterWord(prev: Option<char>, rest: string, host: string)
    requires prev.Some? && Word(prev.value)
    ensures !MatchHere(prev, rest, host)
  {
  }

  // ---- What a scan leaves alone ----

  /** A stretch of word characters, in the input or in the output, is copied. */
  lemma {:induction false} StretchIsCopied(prev: Option<char>, rest: string, host: string, put: string, n: nat)
    requires host != "" && !MatchHere(prev, rest, host)
    requires var out := Substitute(prev, rest, host, put);
             (n <= |out| && forall k | 0 <= k < n :: Word(out[k])) || (n <= |rest| && forall k | 0 <= k < n :: Word(rest[k]))
    ensures var out := Substitute(prev, rest, host, put);
            n <= |out| && n <= |rest| && out[..n] == rest[..n]
            && (n > 0 ==> out[n..] == Substitute(Some(rest[n - 1]), rest[n..], host, put))
    decreases n
  {
    if n > 0 {
      var out := Substitute(prev, rest, host, put);
      var tail := Substitute(Some(rest[0]), rest[1..], host, put);
      assert out == [rest[0]] + tail && out[1..] == tail;
      assert out[0] == rest[0] && Word(rest[0]);
      NoMatchAfterWord(Some(rest[0]), rest[1..], host);
      StretchIsCopied(Some(rest[0]), rest[1..], host, put, n - 1);
      assert out[n..] == tail[n - 1..] && rest[n..] == rest[1..][n - 1..];
      assert out[..n] == [rest[0]] + tail[..n - 1] && rest[..n] == [rest[0]] + rest[1..][..n - 1];
    }
  }

  /** What follows a word character is open in the output exactly when it was in the input. */
  lemma OpenAfterSame(c: char, rest: string, host: string, put: string)
    requires Word(c) && host != ""
    ensures OpenAfter(Substitute(Some(c), rest, host, put)) <==> OpenAfter(rest)
  {
    NoMatchAfterWord(Some(c), rest, host);
    if rest != "" && rest[0] == '.' {
      NoMatchAfterWord(Some(rest[0]), rest[1..], host);
      var tail := Substitute(Some(rest[0]), rest[1..], host, put);
      assert Substitute(Some(c), rest, host, put) == [rest[0]] + tail;
    }
  }

  /** Where the scan does not match, every host matches in the output as in the input. */
  lemma SameMatchWhereCopied(prev: Option<char>, rest: string, host: string, put: string, probe: string)
    requires host != "" && WordHost(probe) && !MatchHere(prev, rest, host)
    ensures MatchHere(prev, Substitute(prev, rest, host, put), probe) <==> MatchHere(prev, rest, probe)
  {
    var out := Substitute(prev, rest, host, put);
    var n := |probe|;
    if n <= |out| && Fold(out[..n]) == Fold(probe) {
      FoldKeepsWord(out[..n], probe);
      forall k | 0 <= k < n ensures Word(out[k]) { assert out[..n][k] in out[..n]; }
      StretchIsCopied(prev, rest, host, put, n);
    }
    if n <= |rest| && Fold(rest[..n]) == Fold(probe) {
      FoldKeepsWord(rest[..n], probe);
      forall k | 0 <= k < n ensures Word(rest[k]) { assert rest[..n][k] in rest[..n]; }
      StretchIsCopied(prev, rest, host, put, n);
      assert out[..n] == rest[..n];
      OpenAfterSame(rest[n - 1], rest[n..], host, put);
    }
  }

  // ---- Two hosts at one place ----

  /** Hosts that match at one place are the same, or one goes on behind the other. */
  lemma TwoMatches(prev: Option<char>, rest: string, a: string, b: string)
    requires MatchHere(prev, rest, a) && MatchHere(prev, rest, b)
    ensures Fold(a) == Fold(b) || Related(a, b)
  {
    if |a| < |b| {
      MatchedStem(prev, rest, a, b);
    } else if |b| < |a| {
      MatchedStem(prev, rest, b, a);
    }
  }

  lemma MatchedStem(prev: Option<char>, rest: string, stem: string, host: string)
    requires MatchHere(prev, rest, stem) && MatchHere(prev, rest, host) && |stem| < |host|
    ensures Extends(host, stem)
  {
    var n, m := |stem|, |host|;
    FoldPart(rest[..m], host, 0, n);
    assert rest[..m][0..n] == rest[..n] && host[0..n] == host[..n];
    FoldPart(rest[..m], host, n, m);
    assert rest[..m][n..m] == rest[n..][..m - n] && host[n..m] == host[n..];
    OpenPrefix(rest[n..], m - n);
    FoldKeepsOpen(rest[n..][..m - n], host[n..]);
  }

  // ---- Occurrences across a replaced stretch ----

  lemma {:induction false} PlacesSkip(prev: Option<char>, a: string, b: string, probe: string)
    ensures Places(prev, a + b, probe) >= Places(PrevAt(prev, a, |a|), b, probe)
    ensures (forall k | 0 <= k < |a| :: !MatchHere(PrevAt(prev, a, k), a[k..] + b, probe)) ==>
              Places(prev, a + b, probe) == Places(PrevAt(prev, a, |a|), b, probe)
    decreases |a|
  {
    if a == "" {
      assert a + b == b;
    } else {
      assert (a + b)[1..] == a[1..] + b && a[0..] + b == a + b;
      PlacesSkip(Some(a[0]), a[1..], b, probe);
      if forall k | 0 <= k < |a| :: !MatchHere(PrevAt(prev, a, k), a[k..] + b, probe) {
        assert !MatchHere(PrevAt(prev, a, 0), a[0..] + b, probe);
        forall k | 0 <= k < |a[1..]| ensures !MatchHere(PrevAt(Some(a[0]), a[1..], k), a[1..][k..] + b, probe) {
          assert a[1..][k..] == a[k + 1..];
          assert PrevAt(Some(a[0]), a[1..], k) == PrevAt(prev, a, k + 1);
        }
      }
    }
  }

  /** A text of word characters holds a host at its start or not at all. */
  lemma PlacesInWord(prev: Option<char>, a: string, b: string, probe: string)
    requires WordHost(a)
    ensures Places(prev, a + b, probe)
         == (if MatchHere(prev, a + b, probe) then 1 else 0) + Places(Some(a[|a| - 1]), b, probe)
  {
    assert (a + b)[1..] == a[1..] + b;
    forall k | 0 <= k < |a[1..]| ensures !MatchHere(PrevAt(Some(a[0]), a[1..], k), a[1..][k..] + b, probe) {
      assert PrevAt(Some(a[0]), a[1..], k) == Some(a[k]);
      NoMatchAfterWord(Some(a[k]), a[1..][k..] + b, probe);
    }
    PlacesSkip(Some(a[0]), a[1..], b, probe);
    assert PrevAt(Some(a[0]), a[1..], |a[1..]|) == Some(a[|a| - 1]);
  }

  /** Inside a matched host no other place is open. */
  lemma PlacesOfMatch(prev: Option<char>, rest: string, host: string, probe: string)
    requires WordHost(host) && MatchHere(prev, rest, host)
    ensures Word(rest[|host| - 1])
    ensures Places(prev, rest, probe)
         == (if MatchHere(prev, rest, probe) then 1 else 0) + Places(Some(rest[|host| - 1]), rest[|host|..], probe)
  {
    var a, b := rest[..|host|], rest[|host|..];
    assert rest == a + b;
    FoldKeepsWord(a, host);
    assert a[|a| - 1] in a;
    PlacesInWord(prev, a, b, probe);
  }

  lemma {:induction false} NoPlaceNoMatch(prev: Option<char>, text: string, probe: string, k: nat)
    requires Places(prev, text, probe) == 0 && k < |text|
    ensures !MatchHere(PrevAt(prev, text, k), text[k..], probe)
    decreases k
  {
    if k == 0 {
      assert text[0..] == text;
    } else {
      assert text[1..][k - 1..] == text[k..];
      assert PrevAt(Some(text[0]), text[1..], k - 1) == PrevAt(prev, text, k);
      NoPlaceNoMatch(Some(text[0]), text[1..], probe, k - 1);
    }
  }

  /** A match from inside NEW lies inside NEW, or NEW regrows the host. */
  lemma MatchFromNew(after: Option<char>, put: string, tail: string, probe: string, k: nat)
    requires probe != "" && OpenAfter(tail) && k <= |put|
    requires MatchHere(PrevAt(after, put, k), put[k..] + tail, probe)
    ensures MatchHere(PrevAt(None, put, k), put[k..], probe) || Extends(probe, put[k..])
  {
    var text, n, room := put[k..] + tail, |probe|, |put| - k;
    assert text[room..] == tail && text[..room] == put[k..];
    if n <= room {
      assert put[k..][..n] == text[..n] && text[n..] == put[k..][n..] + tail;
      assert OpenAfter(put[k..][n..]);
    } else {
      FoldPart(text[..n], probe, 0, room);
      assert text[..n][0..room] == put[k..] && probe[0..room] == probe[..room];
      FoldPart(text[..n], probe, room, n);
      assert text[..n][room..n] == tail[..n - room] && probe[room..n] == probe[room..];
      OpenPrefix(tail, n - room);
      FoldKeepsOpen(tail[..n - room], probe[room..]);
    }
  }

  /** NEW holds the host, or makes it together with dots behind it. */
  ghost predicate Brings(put: string, probe: string) {
    Regrows(put, probe) || Places(None, put, probe) > 0
  }

  lemma NoMatchFromNew(after: Option<char>, put: string, tail: string, probe: string, k: nat)
    requires probe != "" && OpenAfter(tail) && k <= |put| && !Brings(put, probe)
    ensures !MatchHere(PrevAt(after, put, k), put[k..] + tail, probe)
  {
    if k < |put| { NoPlaceNoMatch(None, put, probe, k); }
    if MatchHere(PrevAt(after, put, k), put[k..] + tail, probe) {
      MatchFromNew(after, put, tail, probe, k);
    }
  }

  /** The scan stands right behind a replaced host. */
  ghost predicate BehindNew(before: Option<char>, after: Option<char>, rest: string, put: string) {
    put != "" && before.Some? && Word(before.value) && after == Some(put[|put| - 1]) && OpenAfter(rest)
  }

  lemma NoMatchBehindNew(before: Option<char>, after: Option<char>, rest: string, host: string, put: string, probe: string)
    requires host != "" && probe != "" && BehindNew(before, after, rest, put) && !Brings(put, probe)
    ensures !MatchHere(after, Substitute(before, rest, host, put), probe)
  {
    var out := Substitute(before, rest, host, put);
    OpenAfterSame(before.value, rest, host, put);
    NoMatchFromNew(None, put, out, probe, |put|);
    assert put[|put|..] + out == out;
  }

  lemma PlacesAcrossNew(after: Option<char>, put: string, tail: string, probe: string)
    requires probe != "" && put != "" && OpenAfter(tail)
    ensures Places(after, put + tail, probe) >= Places(Some(put[|put| - 1]), tail, probe)
    ensures !Brings(put, probe) ==> Places(after, put + tail, probe) == Places(Some(put[|put| - 1]), tail, probe)
  {
    if !Brings(put, probe) {
      forall k | 0 <= k < |put| ensures !MatchHere(PrevAt(after, put, k), put[k..] + tail, probe) {
        NoMatchFromNew(after, put, tail, probe, k);
      }
    }
    hide Brings;
    PlacesSkip(after, put, tail, probe);
  }

  /** How many places of a host stand after one substitution, against the number before. */
  ghost predicate PlacesMove(before: nat, after: nat, host: string, put: string, probe: string) {
    && (!Brings(put, probe) ==> after <= before && (Fold(probe) == Fold(host) ==> after == 0))
    && (Fold(probe) != Fold(host) && !Related(probe, host) ==> after >= before)
  }

  /**
   One substitution: where NEW brings no occurrence of a host, no place of it is gained, and the
   replaced host is gone; a host that is not related to the replaced one loses no place.
   */
  lemma {:induction false} PlacesAfter(before: Option<char>, after: Option<char>, rest: string, host: string, put: string,
                                       probe: string)
    requires WordHost(host) && WordHost(probe) && put != ""
    requires before == after || BehindNew(before, after, rest, put)
    ensures PlacesMove(Places(before, rest, probe), Places(after, Substitute(before, rest, host, put), probe), host, put, probe)
    decreases |rest|
  {
    assert host != "";
    hide Brings, Related, WordHost;
    if rest == "" {
    } else if MatchHere(before, rest, host) {
      PlacesOfMatch(before, rest, host, probe);
      var last, tail := rest[|host| - 1], rest[|host|..];
      var out := Substitute(Some(last), tail, host, put);
      OpenAfterSame(last, tail, host, put);
      PlacesAcrossNew(after, put, out, probe);
      PlacesAfter(Some(last), Some(put[|put| - 1]), tail, host, put, probe);
      if MatchHere(before, rest, probe) { TwoMatches(before, rest, probe, host); }
    } else {
      var tail := Substitute(Some(rest[0]), rest[1..], host, put);
      assert Substitute(before, rest, host, put) == [rest[0]] + tail && ([rest[0]] + tail)[1..] == tail;
      if before == after {
        SameMatchWhereCopied(before, rest, host, put, probe);
        if Fold(probe) == Fold(host) { FoldMatch(before, rest, host, probe); }
      } else {
        NoMatchAfterWord(before, rest, probe);
        if !Brings(put, probe) { NoMatchBehindNew(before, after, rest, host, put, probe); }
      }
      PlacesAfter(Some(rest[0]), Some(rest[0]), rest[1..], host, put, probe);
    }
  }

  /** Hosts that differ only in case match at the same places. */
  lemma FoldMatch(prev: Option<char>, rest: string, host: string, probe: string)
    requires Fold(probe) == Fold(host)
    ensures MatchHere(prev, rest, probe) <==> MatchHere(prev, rest, host)
  {
    assert |Fold(probe)| == |probe| && |Fold(host)| == |host|;
  }

  /** Matches of a host never overlap: the scan finds them all. */
  lemma {:induction false} HitsArePlaces(prev: Option<char>, rest: string, host: string)
    requires WordHost(host)
    ensures Hits(prev, rest, host) == Places(prev, rest, host)
    decreases |rest|
  {
    if rest == "" {
    } else if MatchHere(prev, rest, host) {
      PlacesOfMatch(prev, rest, host, host);
      HitsArePlaces(Some(rest[|host| - 1]), rest[|host|..], host);
    } else {
      HitsArePlaces(Some(rest[0]), rest[1..], host);
    }
  }

  /** The same in terms of what the scan finds. */
  lemma HitsAfter(text: string, pair: Pair, host: string)
    requires WordHost(pair.0) && WordHost(host) && pair.1 != ""
    ensures PlacesMove(Hits(None, text, host), Hits(None, Substitute(None, text, pair.0, pair.1), host),
                       pair.0, pair.1, host)
  {
    hide PlacesMove;
    HitsArePlaces(None, text, host);
    HitsArePlaces(None, Substitute(None, text, pair.0, pair.1), host);
    PlacesAfter(None, None, text, pair.0, pair.1, host);
  }

  /** Nothing to find, nothing changed. */
  lemma {:induction false} NoHitsNoChange(prev: Option<char>, rest: string, host: string, put: string)
    requires host != "" && Hits(prev, rest, host) == 0
    ensures Substitute(prev, rest, host, put) == rest
    decreases |rest|
  {
    if rest != "" { NoHitsNoChange(Some(rest[0]), rest[1..], host, put); }
  }

  // ---- Texts of word characters ----

  lemma WordPlaces(text: string, probe: string)
    requires WordHost(text)
    ensures Places(None, text, probe) == if MatchHere(None, text, probe) then 1 else 0
  {
    assert text + "" == text;
    PlacesInWord(None, text, "", probe);
  }

  /** In a text of word characters a match is replaced and the rest is copied. */
  lemma WordReplaced(text: string, host: string, put: string)
    requires WordHost(text) && host != "" && MatchHere(None, text, host)
    ensures Substitute(None, text, host, put) == put + text[|host|..]
  {
    var last, rest := text[|host| - 1], text[|host|..];
    assert last in text;
    NoMatchAfterWord(Some(last), rest, host);
    forall k | 0 <= k < |rest| ensures Word(rest[k]) { assert rest[k] in text; }
    StretchIsCopied(Some(last), rest, host, put, |rest|);
    var out := Substitute(Some(last), rest, host, put);
    assert rest[|rest|..] == "" && out[|rest|..] == "";
    assert out == rest;
  }

  lemma FoldJoin(a: string, b: string)
    ensures Fold(a + b) == Fold(a) + Fold(b)
  {
  }

  /** The scan finds a host exactly when it stands somewhere. */
  lemma {:induction false} HitsIfPlaces(prev: Option<char>, rest: string, host: string)
    requires host != ""
    ensures Hits(prev, rest, host) > 0 <==> Places(prev, rest, host) > 0
    decreases |rest|
  {
    if rest != "" && !MatchHere(prev, rest, host) { HitsIfPlaces(Some(rest[0]), rest[1..], host); }
  }

  /** A host that ends the text and begins at an open place is found. */
  lemma FoundAt(text: string, probe: string, k: nat)
    requires probe != "" && k < |text| && OpenBefore(PrevAt(None, text, k)) && Fold(text[k..]) == Fold(probe)
    ensures Hits(None, text, probe) > 0
  {
    assert |Fold(text[k..])| == |text[k..]| && |Fold(probe)| == |probe|;
    assert text[k..][..|probe|] == text[k..] && text[k..][|probe|..] == "";
    HitsIfPlaces(None, text, probe);
    if Places(None, text, probe) == 0 { NoPlaceNoMatch(None, text, probe, k); }
  }

  /** NEW and the rest of a host that it regrows hold the host. */
  lemma RegrownBehind(put: string, probe: string, k: nat)
    requires probe != "" && k <= |put| && OpenBefore(PrevAt(None, put, k)) && Extends(probe, put[k..])
    ensures Hits(None, put + probe[|put| - k..], probe) > 0
  {
    var rest := probe[|put| - k..];
    var out := put + rest;
    assert out[k..] == put[k..] + rest && PrevAt(None, out, k) == PrevAt(None, put, k);
    FoldJoin(put[k..], rest);
    FoldJoin(probe[..|put| - k], rest);
    assert probe == probe[..|put| - k] + rest;
    FoundAt(out, probe, k);
  }

  /** Where NEW regrows a host: OLD with the rest of the host behind it is left with the host. */
  lemma RegrownIn(host: string, put: string, probe: string, k: nat)
    requires WordHost(host) && WordHost(probe) && k <= |put|
    requires OpenBefore(PrevAt(None, put, k)) && Extends(probe, put[k..])
    ensures var rest := probe[|put| - k..];
            WordHost(host + rest) && MatchHere(None, host + rest, host)
            && Substitute(None, host + rest, host, put) == put + rest
            && Hits(None, put + rest, probe) > 0
  {
    var rest := probe[|put| - k..];
    RegrownBehind(put, probe, k);
    forall c | c in host + rest ensures Word(c) { assert c in host || c in probe; }
    assert (host + rest)[..|host|] == host && (host + rest)[|host|..] == rest;
    hide Hits, Fold, Word, OpenAfter;
    WordReplaced(host + rest, host, put);
  }

  // ---- Conservation ----

  /** Every OLD has become a NEW, and the NEWs there were are still there. */
  lemma {:induction false} NewForOld(before: Option<char>, after: Option<char>, rest: string, host: string, put: string)
    requires WordHost(host) && WordHost(put) && Fold(put) != Fold(host) && !Related(put, host)
    requires before == after || BehindNew(before, after, rest, put)
    ensures Places(after, Substitute(before, rest, host, put), put) == Places(before, rest, put) + Places(before, rest, host)
    decreases |rest|
  {
    assert put[|put| - 1] in put && host != "";
    hide Related, WordHost;
    if rest == "" {
    } else if MatchHere(before, rest, host) {
      var last, tail := rest[|host| - 1], rest[|host|..];
      var out := Substitute(Some(last), tail, host, put);
      PlacesOfMatch(before, rest, host, put);
      PlacesOfMatch(before, rest, host, host);
      if MatchHere(before, rest, put) { TwoMatches(before, rest, put, host); }
      OpenAfterSame(last, tail, host, put);
      assert (put + out)[..|put|] == put && (put + out)[|put|..] == out;
      PlacesInWord(after, put, out, put);
      NewForOld(Some(last), Some(put[|put| - 1]), tail, host, put);
    } else {
      var tail := Substitute(Some(rest[0]), rest[1..], host, put);
      assert Substitute(before, rest, host, put) == [rest[0]] + tail && ([rest[0]] + tail)[1..] == tail;
      if before == after {
        SameMatchWhereCopied(before, rest, host, put, put);
      } else {
        NoMatchAfterWord(before, rest, put);
        NoMatchAfterWord(after, Substitute(before, rest, host, put), put);
      }
      NewForOld(Some(rest[0]), Some(rest[0]), rest[1..], host, put);
    }
  }

  /** A host and another that goes on behind it stand at one place, and only one of them is counted afterwards. */
  lemma RelatedIsLost(text: string, host: string, put: string)
    requires WordHost(text) && WordHost(host) && WordHost(put)
    requires MatchHere(None, text, host) && MatchHere(None, text, put)
    ensures Hits(None, Substitute(None, text, host, put), put) != Hits(None, text, put) + Hits(None, text, host)
  {
    WordReplaced(text, host, put);
    var out := put + text[|host|..];
    forall c | c in out ensures Word(c) { assert c in put || c in text; }
    WordPlaces(text, host);
    WordPlaces(text, put);
    WordPlaces(out, put);
    HitsArePlaces(None, text, host);
    HitsArePlaces(None, text, put);
    HitsArePlaces(None, out, put);
  }

  /** Conservation, exactly: in every text each OLD becomes one NEW if and only if neither goes on behind the other. */
  lemma OldBecomesNewExactly(pair: Pair)
    requires WordHost(pair.0) && WordHost(pair.1) && Fold(pair.1) != Fold(pair.0)
    ensures (forall text ::
               Hits(None, Substitute(None, text, pair.0, pair.1), pair.1) == Hits(None, text, pair.1) + Hits(None, text, pair.0))
       <==> !Related(pair.1, pair.0)
  {
    var host, put := pair.0, pair.1;
    assert host[..|host|] == host && host[|host|..] == "" && put[..|put|] == put && put[|put|..] == "";
    if Extends(put, host) {
      RelatedIsLost(put, host, put);
    } else if Extends(host, put) {
      RelatedIsLost(host, host, put);
    } else {
      forall text ensures
        Hits(None, Substitute(None, text, host, put), put) == Hits(None, text, put) + Hits(None, text, host) {
        NewForOld(None, None, text, host, put);
        HitsArePlaces(None, text, host);
        HitsArePlaces(None, text, put);
        HitsArePlaces(None, Substitute(None, text, host, put), put);
      }
    }
  }
}
