/**
 One pair whose OLD may hold any characters and ends in a letter, digit, dot or hyphen, as
 `host:8080` and `http://host` do: exactly when a substitution leaves no OLD behind.

 An OLD that is there afterwards lies in NEW, or begins in NEW and is completed by the text behind,
 or begins in copied text and is completed by NEW; copied text alone cannot hold one, because the
 scan would have taken it. The lemmas follow this case distinction.
 */
module HostRewriteEnds {
  import opened Prelude
  import opened Strings
  import opened HostRewrite
  import opened HostRewriteGuarantees

  predicate Ended(host: string) {
    host != "" && Word(host[|host| - 1])
  }

  /** As far as both go, the two agree but for case. */
  predicate Agree(a: string, b: string) {
    var n := if |a| < |b| then |a| else |b|;
    Fold(a[..n]) == Fold(b[..n])
  }

  /** No place before j matches the host in the text. */
  ghost predicate NoneBefore(prev: Option<char>, text: string, host: string, j: nat)
    requires j <= |text|
  {
    forall i | 0 <= i < j :: !MatchHere(PrevAt(prev, text, i), text[i..], host)
  }

  /**
   NEW, put for the host behind the first j characters of the probe, goes on as the probe does: it
   agrees with the rest of it, up to a place where a host may end, and the scan reaches the host.
   */
  ghost predicate JoinsAt(host: string, put: string, probe: string, j: nat)
    requires 0 < j < |probe|
  {
    var room := |probe| - j;
    && OpenBefore(Some(probe[j - 1]))
    && Agree(put, probe[j..])
    && (if |put| < room then OpenAfter(probe[j + |put|..]) else OpenAfter(put[room..]))
    && NoneBefore(None, probe[..j] + host, host, j)
  }

  /** Copied characters and a NEW behind them can make the probe. */
  ghost predicate Joins(host: string, put: string, probe: string) {
    exists j | 0 < j < |probe| :: JoinsAt(host, put, probe, j)
  }

  /** Putting NEW for the host can make the probe: in NEW, from NEW on, or up to NEW. */
  ghost predicate Makes(host: string, put: string, probe: string) {
    Brings(put, probe) || Joins(host, put, probe)
  }

  /** A host of word characters is never made from copied characters: no place inside it is open. */
  lemma WordIsNeverJoined(host: string, put: string, probe: string)
    requires WordHost(probe)
    ensures !Joins(host, put, probe)
  {
    forall j | 0 < j < |probe| ensures !JoinsAt(host, put, probe, j) { assert probe[j - 1] in probe; }
  }

  lemma WordIsEnded(host: string)
    requires WordHost(host)
    ensures Ended(host)
  {
    assert host[|host| - 1] in host;
  }

  // ---- How far a scan copies ----

  /** The scan copies the first j characters and stands behind them. */
  ghost predicate Copied(prev: Option<char>, rest: string, host: string, put: string, j: nat)
    requires host != ""
  {
    var out := Substitute(prev, rest, host, put);
    j <= |rest| && j <= |out| && out[..j] == rest[..j]
    && out[j..] == Substitute(PrevAt(prev, rest, j), rest[j..], host, put)
    && NoneBefore(prev, rest, host, j)
  }

  lemma NoneBeforeOnce(prev: Option<char>, rest: string, host: string, j: nat)
    requires rest != "" && !MatchHere(prev, rest, host) && j < |rest|
    requires NoneBefore(Some(rest[0]), rest[1..], host, j)
    ensures NoneBefore(prev, rest, host, j + 1)
  {
    hide MatchHere;
    forall i | 0 <= i < j + 1 ensures !MatchHere(PrevAt(prev, rest, i), rest[i..], host) {
      if i == 0 {
        assert rest[0..] == rest;
      } else {
        assert rest[i..] == rest[1..][i - 1..];
        assert PrevAt(prev, rest, i) == PrevAt(Some(rest[0]), rest[1..], i - 1);
      }
    }
  }

  lemma InFront(c: char, tail: string, j: nat)
    requires j <= |tail|
    ensures ([c] + tail)[j + 1..] == tail[j..] && ([c] + tail)[..j + 1] == [c] + tail[..j]
  {
  }

  /** One more character in front. */
  lemma CopiedOnce(prev: Option<char>, rest: string, host: string, put: string, j: nat)
    requires host != "" && rest != "" && !MatchHere(prev, rest, host)
    requires Copied(Some(rest[0]), rest[1..], host, put, j)
    ensures Copied(prev, rest, host, put, j + 1)
  {
    var tail := Substitute(Some(rest[0]), rest[1..], host, put);
    assert Substitute(prev, rest, host, put) == [rest[0]] + tail;
    NoneBeforeOnce(prev, rest, host, j);
    hide MatchHere, NoneBefore, Substitute;
    InFront(rest[0], tail, j);
    InFront(rest[0], rest[1..], j);
    assert rest == [rest[0]] + rest[1..];
    assert PrevAt(prev, rest, j + 1) == PrevAt(Some(rest[0]), rest[1..], j);
  }

  /** It copies n characters, or up to the first match. */
  lemma {:induction false} CopiedUntil(prev: Option<char>, rest: string, host: string, put: string, n: nat) returns (j: nat)
    requires host != "" && n <= |Substitute(prev, rest, host, put)|
    ensures j <= n && Copied(prev, rest, host, put, j)
    ensures j < n ==> MatchHere(PrevAt(prev, rest, j), rest[j..], host)
    decreases n
  {
    if n == 0 || MatchHere(prev, rest, host) {
      CopiesNothing(prev, rest, host, put);
      assert rest[0..] == rest;
      j := 0;
    } else {
      assert Substitute(prev, rest, host, put) == [rest[0]] + Substitute(Some(rest[0]), rest[1..], host, put);
      j := CopiedUntil(Some(rest[0]), rest[1..], host, put, n - 1);
      CopiedOnce(prev, rest, host, put, j);
      j := j + 1;
      assert rest[j..] == rest[1..][j - 1..] && PrevAt(prev, rest, j) == PrevAt(Some(rest[0]), rest[1..], j - 1);
    }
  }

  /** Where nothing matches before j, the scan copies up to j. */
  lemma {:induction false} CopiesTo(prev: Option<char>, rest: string, host: string, put: string, j: nat)
    requires host != "" && j <= |rest| && NoneBefore(prev, rest, host, j)
    ensures Copied(prev, rest, host, put, j)
    decreases j
  {
    if j == 0 {
      CopiesNothing(prev, rest, host, put);
      return;
    }
    NoneBeforeTail(prev, rest, host, j);
    hide MatchHere, NoneBefore, Substitute, Copied;
    CopiesTo(Some(rest[0]), rest[1..], host, put, j - 1);
    CopiedOnce(prev, rest, host, put, j - 1);
  }

  lemma CopiesNothing(prev: Option<char>, rest: string, host: string, put: string)
    requires host != ""
    ensures Copied(prev, rest, host, put, 0)
  {
    hide MatchHere, Substitute;
    assert rest[0..] == rest && Substitute(prev, rest, host, put)[0..] == Substitute(prev, rest, host, put);
  }

  lemma NoneBeforeTail(prev: Option<char>, rest: string, host: string, j: nat)
    requires 0 < j <= |rest| && NoneBefore(prev, rest, host, j)
    ensures !MatchHere(prev, rest, host) && NoneBefore(Some(rest[0]), rest[1..], host, j - 1)
  {
    hide MatchHere;
    assert rest[0..] == rest && !MatchHere(PrevAt(prev, rest, 0), rest[0..], host);
    forall i | 0 <= i < j - 1 ensures !MatchHere(PrevAt(Some(rest[0]), rest[1..], i), rest[1..][i..], host) {
      assert rest[i + 1..] == rest[1..][i..];
      assert PrevAt(prev, rest, i + 1) == PrevAt(Some(rest[0]), rest[1..], i);
      assert !MatchHere(PrevAt(prev, rest, i + 1), rest[i + 1..], host);
    }
  }

  /** Behind a word character, a text no longer than the host is copied whole. */
  lemma ShortIsCopied(c: char, rest: string, host: string, put: string)
    requires Word(c) && host != "" && |rest| <= |host|
    ensures Substitute(Some(c), rest, host, put) == rest
  {
    forall i | 0 <= i < |rest| ensures !MatchHere(PrevAt(Some(c), rest, i), rest[i..], host) {}
    CopiesTo(Some(c), rest, host, put, |rest|);
    assert rest[|rest|..] == "" && rest[..|rest|] == rest;
    var out := Substitute(Some(c), rest, host, put);
    assert out[|rest|..] == "" && out == out[..|rest|];
  }

  // ---- Nothing is gained ----

  lemma OpenJoin(a: string, b: string)
    requires a != "" && OpenAfter(a) && OpenAfter(b)
    ensures OpenAfter(a + b)
  {
  }

  lemma LastIsWord(text: string, host: string)
    requires Ended(host) && Fold(text) == Fold(host)
    ensures |text| == |host| && Word(text[|host| - 1])
  {
    FoldAt(text, host, |host| - 1);
  }

  lemma Slices(text: string, i: nat, j: nat, m: nat)
    requires i <= j <= m <= |text|
    ensures text[i..][..j - i] == text[..m][i..j] && text[i..][j - i..] == text[j..]
    ensures text[j..m] == text[..m][j..m] && text[j..] == text[j..m] + text[m..]
    ensures text[i..][j - i..][..m - j] == text[j..m]
  {
  }

  /** The host stands at i in the text if it does in the probe's first characters with the host behind them. */
  lemma SameEarlierMatch(prev: Option<char>, rest: string, text: string, host: string, i: nat)
    requires i + |host| < |text| <= |rest| && OpenBefore(prev)
    requires Fold(rest[..|text|]) == Fold(text) && OpenAfter(rest[|text|..])
    ensures MatchHere(PrevAt(None, text, i), text[i..], host) ==> MatchHere(PrevAt(prev, rest, i), rest[i..], host)
  {
    var h, m := |host|, |text|;
    Slices(rest, i, i + h, m);
    Slices(text, i, i + h, m);
    assert text[..m] == text;
    FoldPart(rest[..m], text, i, i + h);
    FoldPart(rest[..m], text, i + h, m);
    if i > 0 { FoldAt(rest[..m], text, i - 1); }
    FoldKeepsOpen(rest[i + h..m], text[i + h..m]);
    hide Fold;
    assert text[i..][h..] == text[i + h..m];
    if OpenAfter(text[i + h..m]) { OpenJoin(rest[i + h..m], rest[m..]); }
  }

  lemma StemAgrees(rest: string, host: string, probe: string, j: nat)
    requires j <= |probe| && j + |host| <= |rest|
    requires Fold(rest[..j]) == Fold(probe[..j]) && Fold(rest[j..][..|host|]) == Fold(host)
    ensures Fold(rest[..j + |host|]) == Fold(probe[..j] + host) && rest[j + |host|..] == rest[j..][|host|..]
  {
    assert rest[..j + |host|] == rest[..j] + rest[j..][..|host|];
    FoldJoin(rest[..j], rest[j..][..|host|]);
    FoldJoin(probe[..j], host);
  }

  /** The first characters of the probe with the host behind them, against the input the scan has copied. */
  lemma CopiedStem(prev: Option<char>, rest: string, host: string, put: string, probe: string, j: nat)
    requires host != "" && 0 < j < |probe| && Copied(prev, rest, host, put, j) && OpenBefore(prev)
    requires MatchHere(PrevAt(prev, rest, j), rest[j..], host) && Fold(rest[..j]) == Fold(probe[..j])
    ensures NoneBefore(None, probe[..j] + host, host, j)
  {
    var text := probe[..j] + host;
    StemAgrees(rest, host, probe, j);
    assert OpenAfter(rest[|text|..]);
    hide MatchHere, Fold, OpenAfter, OpenBefore, Substitute;
    forall i | 0 <= i < j ensures !MatchHere(PrevAt(None, text, i), text[i..], host) {
      assert !MatchHere(PrevAt(prev, rest, i), rest[i..], host);
      SameEarlierMatch(prev, rest, text, host, i);
    }
  }

  /** The output begins as the input does, and so does the probe that stands there. */
  lemma SharedStem(out: string, rest: string, probe: string, j: nat)
    requires 0 < j < |probe| <= |out| && j <= |rest| && out[..j] == rest[..j] && Fold(out[..|probe|]) == Fold(probe)
    ensures Fold(rest[..j]) == Fold(probe[..j])
    ensures OpenBefore(Some(rest[j - 1])) ==> OpenBefore(Some(probe[j - 1]))
  {
    var n := |probe|;
    assert out[..n][j - 1] == out[..j][j - 1] == rest[j - 1];
    FoldAt(out[..n], probe, j - 1);
    FoldPart(out[..n], probe, 0, j);
    assert out[..n][0..j] == out[..j] && probe[0..j] == probe[..j];
  }

  /** Up to the first NEW, the output has the probe's first characters, and the host is reached. */
  lemma BlockStem(prev: Option<char>, rest: string, host: string, put: string, probe: string, j: nat)
    requires host != "" && 0 < j < |probe| && Copied(prev, rest, host, put, j)
    requires MatchHere(PrevAt(prev, rest, j), rest[j..], host)
    requires MatchHere(prev, Substitute(prev, rest, host, put), probe)
    ensures OpenBefore(Some(probe[j - 1])) && NoneBefore(None, probe[..j] + host, host, j)
  {
    hide Fold, Substitute, OpenAfter, OpenBefore, NoneBefore;
    SharedStem(Substitute(prev, rest, host, put), rest, probe, j);
    CopiedStem(prev, rest, host, put, probe, j);
  }

  /** What follows a match in the output: NEW, and then a place where a host may end. */
  lemma BlockOutput(prev: Option<char>, rest: string, host: string, put: string) returns (after: string)
    requires Ended(host) && MatchHere(prev, rest, host)
    ensures Substitute(prev, rest, host, put) == put + after && OpenAfter(after)
  {
    LastIsWord(rest[..|host|], host);
    var last, tail := rest[|host| - 1], rest[|host|..];
    OpenAfterSame(last, tail, host, put);
    after := Substitute(Some(last), tail, host, put);
  }

  /** From the first NEW on, the output goes on as the probe does. */
  lemma BlockAgrees(out: string, put: string, after: string, probe: string, j: nat)
    requires 0 < j < |probe| <= |out| && out[j..] == put + after && OpenAfter(after)
    requires Fold(out[..|probe|]) == Fold(probe) && OpenAfter(out[|probe|..])
    ensures Agree(put, probe[j..])
    ensures if |put| < |probe| - j then OpenAfter(probe[j + |put|..]) else OpenAfter(put[|probe| - j..])
  {
    var n := |probe|;
    FoldPart(out[..n], probe, j, n);
    Slices(out, j, n, n);
    Slices(probe, j, n, n);
    assert probe[..n] == probe;
    hide OpenAfter, Fold;
    if |put| < n - j { assert probe[j + |put|..] == probe[j..][|put|..]; }
    NewAgrees(out[j..], put, after, probe[j..]);
  }

  /** What stands in the output up to and beyond the first NEW. */
  lemma BlockJoins(prev: Option<char>, rest: string, host: string, put: string, probe: string, j: nat)
    requires Ended(host) && 0 < j < |probe| && Copied(prev, rest, host, put, j)
    requires MatchHere(PrevAt(prev, rest, j), rest[j..], host)
    requires MatchHere(prev, Substitute(prev, rest, host, put), probe)
    ensures JoinsAt(host, put, probe, j)
  {
    BlockStem(prev, rest, host, put, probe, j);
    var after := BlockOutput(PrevAt(prev, rest, j), rest[j..], host, put);
    hide Fold, OpenAfter, OpenBefore, NoneBefore, Agree, Substitute, Ended;
    BlockAgrees(Substitute(prev, rest, host, put), put, after, probe, j);
  }

  /** NEW and an open text behind it, of which the first characters are those of `rest`. */
  lemma NewAgrees(text: string, put: string, after: string, rest: string)
    requires text == put + after && OpenAfter(after) && |rest| <= |text|
    requires Fold(text[..|rest|]) == Fold(rest) && OpenAfter(text[|rest|..])
    ensures Agree(put, rest)
    ensures if |put| < |rest| then OpenAfter(rest[|put|..]) else OpenAfter(put[|rest|..])
  {
    var n, p := |rest|, |put|;
    if p < n {
      FoldPart(text[..n], rest, 0, p);
      assert text[..n][0..p] == put && rest[0..p] == rest[..p] && put[..p] == put;
      FoldPart(text[..n], rest, p, n);
      assert text[p..] == after && text[..n][p..n] == text[p..][..n - p] && rest[p..n] == rest[p..];
      OpenPrefix(after, n - p);
      FoldKeepsOpen(after[..n - p], rest[p..]);
    } else {
      assert text[..n] == put[..n] && rest[..n] == rest;
      assert put[n..] == text[n..][..p - n];
      OpenPrefix(text[n..], p - n);
    }
  }

  /** Where the scan does not match, a host matches in the output only if it did in the input, or is joined. */
  lemma MatchWhereCopied(prev: Option<char>, rest: string, host: string, put: string, probe: string)
    requires Ended(host) && Ended(probe) && put != "" && !MatchHere(prev, rest, host) && !Joins(host, put, probe)
    ensures MatchHere(prev, Substitute(prev, rest, host, put), probe) ==> MatchHere(prev, rest, probe)
  {
    var out, n := Substitute(prev, rest, host, put), |probe|;
    if MatchHere(prev, out, probe) {
      var j := CopiedUntil(prev, rest, host, put, n);
      assert rest[0..] == rest;
      if j < n {
        BlockJoins(prev, rest, host, put, probe, j);
        assert false;
      }
      LastIsWord(out[..n], probe);
      assert out[..n][n - 1] == rest[n - 1];
      OpenAfterSame(rest[n - 1], rest[n..], host, put);
    }
  }

  /** How many places of a host stand after one substitution that cannot make it. */
  ghost predicate NoneGained(before: nat, after: nat, host: string, probe: string) {
    after <= before && (Fold(probe) == Fold(host) ==> after == 0)
  }

  lemma {:induction false} PlacesNotGained(before: Option<char>, after: Option<char>, rest: string, host: string, put: string,
                                           probe: string)
    requires Ended(host) && Ended(probe) && put != "" && !Makes(host, put, probe)
    requires before == after || BehindNew(before, after, rest, put)
    ensures NoneGained(Places(before, rest, probe), Places(after, Substitute(before, rest, host, put), probe), host, probe)
    decreases |rest|
  {
    assert host != "" && probe != "";
    hide Brings, Joins;
    if rest == "" {
    } else if MatchHere(before, rest, host) {
      LastIsWord(rest[..|host|], host);
      var last, tail := rest[|host| - 1], rest[|host|..];
      var out := Substitute(Some(last), tail, host, put);
      hide Ended;
      OpenAfterSame(last, tail, host, put);
      PlacesAcrossNew(after, put, out, probe);
      PlacesSkip(before, rest[..|host|], tail, probe);
      assert rest == rest[..|host|] + tail;
      PlacesNotGained(Some(last), Some(put[|put| - 1]), tail, host, put, probe);
    } else {
      var tail := Substitute(Some(rest[0]), rest[1..], host, put);
      assert Substitute(before, rest, host, put) == [rest[0]] + tail && ([rest[0]] + tail)[1..] == tail;
      if before == after {
        MatchWhereCopied(before, rest, host, put, probe);
        if Fold(probe) == Fold(host) { FoldMatch(before, rest, host, probe); }
      } else {
        NoMatchAfterWord(before, rest, probe);
        NoMatchBehindNew(before, after, rest, host, put, probe);
      }
      PlacesNotGained(Some(rest[0]), Some(rest[0]), rest[1..], host, put, probe);
    }
  }

  // ---- The condition is exact ----

  /** The text in which copied characters and a NEW make OLD: OLD's first characters, OLD, and what NEW leaves of it. */
  function JoinedRest(put: string, host: string, j: nat): string
    requires j < |host|
  {
    if |put| < |host| - j then host[j + |put|..] else ""
  }

  /** A match that fits the stem does not need what follows the stem. */
  lemma EarlierInStem(stem: string, rest: string, host: string, i: nat)
    requires i + |host| <= |stem| && i < |stem|
    ensures MatchHere(PrevAt(None, stem + rest, i), (stem + rest)[i..], host) ==> MatchHere(PrevAt(None, stem, i), stem[i..], host)
  {
    var text, h := stem + rest, |host|;
    assert text[i..][..h] == stem[i..][..h] && PrevAt(None, text, i) == PrevAt(None, stem, i);
    assert stem[i..][h..] == text[i..][h..][..|stem| - i - h];
    if OpenAfter(text[i..][h..]) { OpenPrefix(text[i..][h..], |stem| - i - h); }
  }

  lemma NoneBeforeMore(stem: string, rest: string, host: string, j: nat)
    requires j + |host| <= |stem| && j < |stem| && NoneBefore(None, stem, host, j)
    ensures NoneBefore(None, stem + rest, host, j)
  {
    hide MatchHere;
    forall i | 0 <= i < j ensures !MatchHere(PrevAt(None, stem + rest, i), (stem + rest)[i..], host) {
      assert !MatchHere(PrevAt(None, stem, i), stem[i..], host);
      EarlierInStem(stem, rest, host, i);
    }
  }

  lemma JoinedMatches(put: string, host: string, j: nat)
    requires Ended(host) && 0 < j < |host| && JoinsAt(host, put, host, j)
    ensures MatchHere(Some(host[j - 1]), host + JoinedRest(put, host, j), host)
  {
    var text := host + JoinedRest(put, host, j);
    assert text[..|host|] == host && text[|host|..] == JoinedRest(put, host, j);
  }

  /** Once the scan has copied up to a match with a short rest behind it, the output is known. */
  lemma OutputAt(text: string, host: string, put: string, j: nat, rest: string)
    requires Ended(host) && 0 < j <= |text| && text[j..] == host + rest && |rest| <= |host|
    requires Copied(None, text, host, put, j) && MatchHere(Some(text[j - 1]), text[j..], host)
    ensures Substitute(None, text, host, put) == text[..j] + put + rest
  {
    var h := |host|;
    assert (host + rest)[h..] == rest && (host + rest)[h - 1] == host[h - 1];
    ShortIsCopied(host[h - 1], rest, host, put);
    var out := Substitute(None, text, host, put);
    assert out[j..] == put + rest;
    assert out == out[..j] + out[j..];
  }

  lemma JoinedIsReached(put: string, host: string, j: nat)
    requires Ended(host) && 0 < j < |host| && JoinsAt(host, put, host, j)
    ensures var text := host[..j] + host + JoinedRest(put, host, j);
            Substitute(None, text, host, put) == host[..j] + put + JoinedRest(put, host, j)
  {
    var rest, stem := JoinedRest(put, host, j), host[..j] + host;
    var text := stem + rest;
    JoinedMatches(put, host, j);
    NoneBeforeMore(stem, rest, host, j);
    hide NoneBefore, MatchHere, JoinsAt, Ended;
    CopiesTo(None, text, host, put, j);
    assert text[j..] == host + rest && text[j - 1] == host[j - 1] && text[..j] == host[..j];
    OutputAt(text, host, put, j, rest);
  }

  /** Where the parts agree with the host's, but for case, the whole does. */
  lemma FoldWhole(a: string, b: string, host: string, j: nat)
    requires j <= |host| && Fold(a) == Fold(host[..j]) && Fold(b) == Fold(host[j..])
    ensures Fold(a + b) == Fold(host) && |a + b| == |host|
  {
    assert host == host[..j] + host[j..];
    FoldJoin(a, b);
    FoldJoin(host[..j], host[j..]);
    assert |Fold(a)| == |a| && |Fold(host[..j])| == j && |Fold(b)| == |b| && |Fold(host[j..])| == |host| - j;
  }

  lemma JoinedIsFound(put: string, host: string, j: nat)
    requires Ended(host) && 0 < j < |host| && JoinsAt(host, put, host, j)
    ensures Hits(None, host[..j] + put + JoinedRest(put, host, j), host) > 0
  {
    var rest, room := JoinedRest(put, host, j), |host| - j;
    var out := host[..j] + put + rest;
    if |put| < room {
      assert put[..|put|] == put && host[j..][..|put|] == host[j..j + |put|] && host[j..][|put|..] == rest;
      FoldWhole(put, rest, host[j..], |put|);
      FoldWhole(host[..j], put + rest, host, j);
      assert out == host[..j] + (put + rest);
      assert out[..|host|] == out && out[|host|..] == "";
    } else {
      assert host[j..][..room] == host[j..];
      FoldWhole(host[..j], put[..room], host, j);
      assert out[..|host|] == host[..j] + put[..room] && out[|host|..] == put[room..];
    }
    hide Hits, Fold, JoinsAt;
    assert MatchHere(None, out, host);
    HitsIfPlaces(None, out, host);
  }

  lemma RegrownIsFound(put: string, host: string, k: nat)
    requires Ended(host) && k <= |put| && OpenBefore(PrevAt(None, put, k)) && Extends(host, put[k..])
    ensures var rest := host[|put| - k..];
            Substitute(None, host + rest, host, put) == put + rest && Hits(None, put + rest, host) > 0
  {
    var rest := host[|put| - k..];
    RegrownBehind(put, host, k);
    assert (host + rest)[..|host|] == host && (host + rest)[|host|..] == rest;
    assert (host + rest)[|host| - 1] == host[|host| - 1];
    assert MatchHere(None, host + rest, host);
    ShortIsCopied(host[|host| - 1], rest, host, put);
  }

  lemma HeldIsFound(put: string, host: string)
    requires host != "" && Places(None, put, host) > 0
    ensures Hits(None, Substitute(None, host, host, put), host) > 0
  {
    assert host[..|host|] == host && host[|host|..] == "" && MatchHere(None, host, host);
    assert put + "" == put;
    HitsIfPlaces(None, put, host);
  }

  /** Where NEW can make OLD, some text is left with it. */
  lemma MadeIsLeft(put: string, host: string) returns (text: string)
    requires Ended(host) && Makes(host, put, host)
    ensures Hits(None, Substitute(None, text, host, put), host) > 0
  {
    hide JoinsAt, Extends, Ended, OpenBefore, Hits, Substitute;
    if Places(None, put, host) > 0 {
      assert host != "" by { EndedIsSome(host); }
      HeldIsFound(put, host);
      text := host;
    } else if Regrows(put, host) {
      var k :| 0 <= k <= |put| && OpenBefore(PrevAt(None, put, k)) && Extends(host, put[k..]);
      ExtendsIsLonger(host, put[k..]);
      RegrownIsFound(put, host, k);
      text := host + host[|put| - k..];
    } else {
      var j :| 0 < j < |host| && JoinsAt(host, put, host, j);
      JoinedIsReached(put, host, j);
      JoinedIsFound(put, host, j);
      text := host[..j] + host + JoinedRest(put, host, j);
    }
  }

  lemma EndedIsSome(host: string)
    requires Ended(host)
    ensures host != ""
  {
  }

  lemma ExtendsIsLonger(host: string, stem: string)
    requires Extends(host, stem)
    ensures |stem| < |host|
  {
  }

  /**
   For one pair, whatever characters OLD holds before its last, the condition is exact: no text is
   left with an OLD if and only if NEW cannot make one.
   */
  lemma OldIsGoneExactly(pair: Pair)
    requires Ended(pair.0) && Literal(pair.1)
    ensures (forall text :: Hits(None, Substitute(None, text, pair.0, pair.1), pair.0) == 0) <==> !Makes(pair.0, pair.1, pair.0)
  {
    var host, put := pair.0, pair.1;
    hide Makes;
    if Makes(host, put, host) {
      var text := MadeIsLeft(put, host);
    } else {
      forall text ensures Hits(None, Substitute(None, text, host, put), host) == 0 {
        PlacesNotGained(None, None, text, host, put, host);
        HitsIfPlaces(None, Substitute(None, text, host, put), host);
      }
    }
  }
}
