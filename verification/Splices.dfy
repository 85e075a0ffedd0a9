/** Replacement: places taken from left to right without overlap, each put anew, the rest copied. */
module Splices {
  /** The next cut is the first place not before `from`; an empty match moves on by one character. */
  ghost predicate LeftToRight(places: set<nat>, at: seq<nat>, width: nat, from: nat)
    decreases |at|
  {
    if at == [] then forall p | p in places :: p < from
    else
      && at[0] in places && from <= at[0] && (forall p | p in places :: p < from || at[0] <= p)
      && LeftToRight(places, at[1..], width, at[0] + if width == 0 then 1 else width)
  }

  /** The text from `from` on, each stretch of that width at a cut replaced. */
  ghost function Spliced(text: string, at: seq<nat>, width: nat, put: string, from: nat): string
    decreases |at|
  {
    if at == [] then text[if from <= |text| then from else |text|..]
    else (if from <= at[0] <= |text| then text[from..at[0]] else "") + put + Spliced(text, at[1..], width, put, at[0] + width)
  }

  ghost predicate ReplacedAt(text: string, places: set<nat>, width: nat, put: string, out: string) {
    exists at | LeftToRight(places, at, width, 0) :: out == Spliced(text, at, width, put, 0)
  }

  lemma {:induction false} OneWay(places: set<nat>, a: seq<nat>, b: seq<nat>, width: nat, from: nat)
    requires LeftToRight(places, a, width, from) && LeftToRight(places, b, width, from)
    ensures a == b
    decreases |a|
  {
    if a != [] && b != [] {
      assert a[0] == b[0];
      OneWay(places, a[1..], b[1..], width, a[0] + if width == 0 then 1 else width);
      assert a == [a[0]] + a[1..] && b == [b[0]] + b[1..];
    }
  }

  /** There is one result. */
  lemma ReplacedOnce(text: string, places: set<nat>, width: nat, put: string, a: string, b: string)
    requires ReplacedAt(text, places, width, put, a) && ReplacedAt(text, places, width, put, b)
    ensures a == b
  {
    var x :| LeftToRight(places, x, width, 0) && a == Spliced(text, x, width, put, 0);
    var y :| LeftToRight(places, y, width, 0) && b == Spliced(text, y, width, put, 0);
    OneWay(places, x, y, width, 0);
  }

  /** A character that starts no place is copied. */
  lemma CopyOne(text: string, places: set<nat>, at: seq<nat>, width: nat, put: string, from: nat)
    requires from < |text| && from !in places && (forall p | p in places :: p <= |text|)
    requires LeftToRight(places, at, width, from + 1)
    ensures LeftToRight(places, at, width, from)
    ensures Spliced(text, at, width, put, from) == [text[from]] + Spliced(text, at, width, put, from + 1)
  {
    if at == [] {
      assert text[from..] == [text[from]] + text[from + 1..];
    } else {
      assert text[from..at[0]] == [text[from]] + text[from + 1..at[0]];
    }
  }

  /** At the end nothing is left to cut. */
  lemma NoCut(text: string, places: set<nat>, width: nat, put: string)
    requires forall p | p in places :: p < |text|
    ensures LeftToRight(places, [], width, |text|) && Spliced(text, [], width, put, |text|) == ""
  {
  }

  /** A place is put anew. */
  lemma CutOne(text: string, places: set<nat>, at: seq<nat>, width: nat, put: string, from: nat)
    requires from in places && from <= |text|
    requires LeftToRight(places, at, width, from + if width == 0 then 1 else width)
    ensures LeftToRight(places, [from] + at, width, from)
    ensures Spliced(text, [from] + at, width, put, from) == put + Spliced(text, at, width, put, from + width)
  {
    assert ([from] + at)[1..] == at;
    assert text[from..from] == "";
  }
}
