/**
 Python's string operations, on ASCII: `lower`, `strip` and `split`, the names made of lower-case
 letters, digits and underscores, and decimal numerals. Other than in Python, no character outside
 ASCII is a letter, a digit or blank, and none has another case. The lemmas say what stripping
 leaves, which characters a made name has, and that numerals differ for different numbers.
 */
module Strings {
  predicate IsDigit(c: char) {
    '0' <= c <= '9'
  }

  predicate IsAlnum(c: char) {
    'a' <= c <= 'z' || 'A' <= c <= 'Z' || IsDigit(c)
  }

  function Lower(c: char): char {
    if 'A' <= c <= 'Z' then (c as int + 32) as char else c
  }

  predicate Blank(c: char) {
    c == ' ' || '\t' <= c <= '\r' || '\U{1C}' <= c <= '\U{1F}'
  }

  /** The character classes, spelled out. */
  lemma Classes(c: char)
    ensures IsDigit(c) <==> c in "0123456789"
    ensures LowerAlnum(c) <==> c in "abcdefghijklmnopqrstuvwxyz0123456789"
    ensures IsAlnum(c) <==> c in "abcdefghijklmnopqrstuvwxyz0123456789" || c in "ABCDEFGHIJKLMNOPQRSTUVWXYZ"
    ensures Blank(c) <==> c in " \t\n\U{B}\U{C}\r\U{1C}\U{1D}\U{1E}\U{1F}"
  {
  }

  /** Lower case, letter by letter; every other character is its own. */
  lemma LowerCase(c: char)
    ensures forall i | 0 <= i < 26 && c == "ABCDEFGHIJKLMNOPQRSTUVWXYZ"[i] :: Lower(c) == "abcdefghijklmnopqrstuvwxyz"[i]
    ensures c !in "ABCDEFGHIJKLMNOPQRSTUVWXYZ" ==> Lower(c) == c
  {
    forall i | 0 <= i < 26 && c == "ABCDEFGHIJKLMNOPQRSTUVWXYZ"[i] ensures Lower(c) == "abcdefghijklmnopqrstuvwxyz"[i] {
      LetterAt(i);
    }
    if 'A' <= c <= 'Z' { LetterAt(c as int - 65); }
  }

  lemma LetterAt(i: nat)
    requires i < 26
    ensures "ABCDEFGHIJKLMNOPQRSTUVWXYZ"[i] as int == 65 + i && "abcdefghijklmnopqrstuvwxyz"[i] as int == 97 + i
  {
  }

  predicate StartsWith(text: string, prefix: string) {
    |prefix| <= |text| && text[..|prefix|] == prefix
  }

  predicate EndsWith(text: string, suffix: string) {
    |suffix| <= |text| && text[|text| - |suffix|..] == suffix
  }

  function StripLeft(text: string, drop: char -> bool): string {
    if text != "" && drop(text[0]) then StripLeft(text[1..], drop) else text
  }

  function StripRight(text: string, drop: char -> bool): string {
    if text != "" && drop(text[|text| - 1]) then StripRight(text[..|text| - 1], drop) else text
  }

  function Strip(text: string, drop: char -> bool): string {
    StripRight(StripLeft(text, drop), drop)
  }

  lemma {:induction false} StripLeftEnds(text: string, drop: char -> bool)
    ensures var left := StripLeft(text, drop);
            left == "" || !drop(left[0])
  {
    if text != "" && drop(text[0]) { StripLeftEnds(text[1..], drop); }
  }

  lemma {:induction false} StripRightEnds(text: string, drop: char -> bool)
    ensures var right := StripRight(text, drop);
            right <= text && (right == "" || !drop(right[|right| - 1]))
  {
    if text != "" && drop(text[|text| - 1]) { StripRightEnds(text[..|text| - 1], drop); }
  }

  /** What str.strip leaves: the text without droppable characters at either end. */
  ghost predicate Stripped(text: string, drop: char -> bool, out: string) {
    exists i, j | 0 <= i <= j <= |text| ::
      && out == text[i..j]
      && (forall k | 0 <= k < i || j <= k < |text| :: drop(text[k]))
      && (i < j ==> !drop(text[i]) && !drop(text[j - 1]))
  }

  lemma {:induction false} StripLeftIs(text: string, drop: char -> bool) returns (i: nat)
    ensures i <= |text| && StripLeft(text, drop) == text[i..]
    ensures (forall k | 0 <= k < i :: drop(text[k])) && (i < |text| ==> !drop(text[i]))
  {
    if text != "" && drop(text[0]) {
      var rest := StripLeftIs(text[1..], drop);
      i := rest + 1;
      forall k | 0 <= k < i ensures drop(text[k]) { if k > 0 { assert text[1..][k - 1] == text[k]; } }
    } else {
      i := 0;
    }
  }

  lemma {:induction false} StripRightIs(text: string, drop: char -> bool) returns (j: nat)
    ensures j <= |text| && StripRight(text, drop) == text[..j]
    ensures (forall k | j <= k < |text| :: drop(text[k])) && (0 < j ==> !drop(text[j - 1]))
  {
    if text != "" && drop(text[|text| - 1]) {
      j := StripRightIs(text[..|text| - 1], drop);
      assert text[..|text| - 1][..j] == text[..j];
    } else {
      j := |text|;
      assert text[..j] == text;
    }
  }

  /** Strip leaves the stripped text, and there is no other. */
  lemma StripIs(text: string, drop: char -> bool, out: string)
    ensures Stripped(text, drop, out) <==> out == Strip(text, drop)
  {
    var i := StripLeftIs(text, drop);
    var j := StripRightIs(text[i..], drop);
    assert Strip(text, drop) == text[i..i + j];
    assert forall k | i + j <= k < |text| :: text[k] == text[i..][k - i];
    assert j > 0 ==> i < |text| && text[i + j - 1] == text[i..][j - 1];
    if Stripped(text, drop, out) {
      var a, b :| 0 <= a <= b <= |text| && out == text[a..b]
        && (forall k | 0 <= k < a || b <= k < |text| :: drop(text[k]))
        && (a < b ==> !drop(text[a]) && !drop(text[b - 1]));
      if a < b { assert a == i && b == i + j; } else { assert j == 0; }
    }
  }

  /** A stripped text has nothing left to strip. */
  lemma StripTwice(text: string, drop: char -> bool)
    ensures Strip(Strip(text, drop), drop) == Strip(text, drop)
  {
    StripLeftEnds(text, drop);
    StripRightEnds(StripLeft(text, drop), drop);
  }

  function Split(text: string, at: char): (parts: seq<string>)
    ensures parts != []
  {
    if text == "" then [""]
    else
      var rest := Split(text[1..], at);
      if text[0] == at then [""] + rest else [[text[0]] + rest[0]] + rest[1..]
  }

  // ---- Names and numbers ----

  predicate LowerAlnum(c: char) {
    'a' <= c <= 'z' || IsDigit(c)
  }

  /** Lower case, every run of other characters one underscore. */
  function Collapse(text: string, inRun: bool): string {
    if text == "" then ""
    else if LowerAlnum(Lower(text[0])) then [Lower(text[0])] + Collapse(text[1..], false)
    else (if inRun then "" else "_") + Collapse(text[1..], true)
  }

  predicate Underscore(c: char) {
    c == '_'
  }

  function Snake(text: string): string {
    Strip(Collapse(text, false), Underscore)
  }

  lemma {:induction false} CollapseChars(text: string, inRun: bool)
    ensures forall c | c in Collapse(text, inRun) :: LowerAlnum(c) || c == '_'
  {
    if text != "" {
      CollapseChars(text[1..], false);
      CollapseChars(text[1..], true);
    }
  }

  lemma {:induction false} StripLeftPart(text: string, drop: char -> bool)
    ensures forall c | c in StripLeft(text, drop) :: c in text
  {
    if text != "" && drop(text[0]) { StripLeftPart(text[1..], drop); }
  }

  lemma SnakeChars(text: string)
    ensures forall c | c in Snake(text) :: LowerAlnum(c) || c == '_'
    ensures Snake(text) != "" ==> LowerAlnum(Snake(text)[0])
  {
    var collapsed := Collapse(text, false);
    var left := StripLeft(collapsed, Underscore);
    CollapseChars(text, false);
    StripLeftPart(collapsed, Underscore);
    StripLeftEnds(collapsed, Underscore);
    StripRightEnds(left, Underscore);
    if Snake(text) != "" { assert Snake(text)[0] == left[0]; }
  }

  function Digits(n: nat): string {
    if n < 10 then [('0' as int + n) as char] else Digits(n / 10) + [('0' as int + n % 10) as char]
  }

  function ValueOf(digits: string): int
    requires forall c | c in digits :: IsDigit(c)
  {
    if digits == "" then 0
    else
      var last := digits[|digits| - 1];
      assert last in digits && IsDigit(last);
      10 * ValueOf(digits[..|digits| - 1]) + (last - '0') as int
  }

  /** Decimal numerals read back, so no two numbers share one. */
  lemma {:induction false} DigitsRead(n: nat)
    ensures Digits(n) != "" && forall c | c in Digits(n) :: IsDigit(c)
    ensures n > 0 ==> Digits(n)[0] != '0'
    ensures ValueOf(Digits(n)) == n
  {
    if n >= 10 {
      DigitsRead(n / 10);
      assert Digits(n)[..|Digits(n)| - 1] == Digits(n / 10);
    } else {
      assert Digits(n)[..0] == "";
    }
  }

  lemma ThreeDigits(n: nat)
    requires n < 1000
    ensures |Digits(n)| <= 3
  {
    if n >= 100 { assert |Digits(n / 100)| == 1; assert n / 10 / 10 == n / 100; }
  }
}
