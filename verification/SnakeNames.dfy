/**
 Names made of lower-case letters, digits and underscores, character by character: what one more
 character adds. Overlay keys and column names are such names.
 */
module SnakeNames {
  import opened Strings

  /** The text ends in a character that is neither letter nor digit; the empty text as told. */
  ghost predicate EndsInRun(text: string, inRun: bool) {
    if text == "" then inRun else !IsAlnum(text[|text| - 1])
  }

  lemma LettersAre(c: char)
    ensures LowerAlnum(Lower(c)) <==> IsAlnum(c)
    ensures IsAlnum(c) ==> Lower(c) != '_'
  {
  }

  lemma {:induction false} CollapseSnoc(text: string, c: char, inRun: bool)
    ensures Collapse(text + [c], inRun)
         == Collapse(text, inRun) + (if IsAlnum(c) then [Lower(c)] else if EndsInRun(text, inRun) then "" else "_")
  {
    LettersAre(c);
    if text == "" {
      assert (text + [c])[1..] == "";
    } else {
      assert (text + [c])[1..] == text[1..] + [c] && (text + [c])[0] == text[0];
      LettersAre(text[0]);
      CollapseSnoc(text[1..], c, !IsAlnum(text[0]));
      hide IsAlnum, Lower, LowerAlnum;
    }
  }

  /** A collapsed text ends in one underscore exactly when the text ends in a run, and has no two in a row. */
  lemma {:induction false} CollapsedEnd(text: string)
    ensures var out := Collapse(text, false);
      && (out != "" && out[|out| - 1] == '_' <==> text != "" && EndsInRun(text, false))
      && (|out| > 1 && out[|out| - 1] == '_' ==> out[|out| - 2] != '_')
    decreases |text|
  {
    if text != "" {
      var front, c := text[..|text| - 1], text[|text| - 1];
      assert text == front + [c];
      CollapseSnoc(front, c, false);
      CollapsedEnd(front);
      LettersAre(c);
      hide Collapse, IsAlnum, Lower, LowerAlnum;
    }
  }

  /** One more underscore is stripped away. */
  lemma StripUnderscore(text: string)
    ensures Strip(text + "_", Underscore) == Strip(text, Underscore)
  {
    var i, j := StrippedPart(text);
    var more := text + "_";
    assert more[i..j] == text[i..j];
    StripIs(more, Underscore, text[i..j]);
  }

  lemma StrippedPart(text: string) returns (i: nat, j: nat)
    ensures i <= j <= |text| && Strip(text, Underscore) == text[i..j]
    ensures (forall k | 0 <= k < i || j <= k < |text| :: text[k] == '_')
    ensures i < j ==> text[i] != '_' && text[j - 1] != '_'
  {
    StripIs(text, Underscore, Strip(text, Underscore));
    i, j :| 0 <= i <= j <= |text| && Strip(text, Underscore) == text[i..j]
      && (forall k | 0 <= k < i || j <= k < |text| :: Underscore(text[k]))
      && (i < j ==> !Underscore(text[i]) && !Underscore(text[j - 1]));
  }

  /** One more other character is kept, and so is the one underscore that it follows, unless it is the first. */
  lemma StripOther(text: string, c: char)
    requires |text| > 1 && text[|text| - 1] == '_' ==> text[|text| - 2] != '_'
    requires c != '_'
    ensures Strip(text + [c], Underscore)
         == Strip(text, Underscore) + (if Strip(text, Underscore) != "" && text[|text| - 1] == '_' then "_" else "") + [c]
  {
    var i, j := StrippedPart(text);
    var more := text + [c];
    var k := if i < j then i else |text|;
    assert forall n | 0 <= n < k :: more[n] == '_';
    assert more[k..|more|] == text[k..] + [c];
    StripIs(more, Underscore, more[k..|more|]);
    hide Strip, Stripped;
    if i < j {
      assert j == |text| || j == |text| - 1;
      assert text[i..] == text[i..j] + text[j..];
      assert text[j..] == if j < |text| then "_" else "";
    } else {
      assert text[|text|..] == "" && text[i..j] == "";
    }
  }

  /**
   A name grows with its text: a letter or digit is added in lower case, after one underscore if the
   name has begun and something else stood before it; any other character adds nothing.
   */
  lemma SnakeGrows(text: string, c: char)
    ensures Snake("") == ""
    ensures !IsAlnum(c) ==> Snake(text + [c]) == Snake(text)
    ensures IsAlnum(c) ==>
      Snake(text + [c]) ==
      Snake(text) + (if Snake(text) != "" && !IsAlnum(text[|text| - 1]) then "_" else "") + [Lower(c)]
  {
    var out := Collapse(text, false);
    assert Snake(text) == Strip(out, Underscore) && Snake(text + [c]) == Strip(Collapse(text + [c], false), Underscore);
    assert Strip("", Underscore) == "";
    CollapseSnoc(text, c, false);
    CollapsedEnd(text);
    LettersAre(c);
    hide Collapse, IsAlnum, Lower, LowerAlnum;
    if IsAlnum(c) { StripOther(out, Lower(c)); } else { StripUnderscore(out); }
    assert out + "" == out;
  }
}
