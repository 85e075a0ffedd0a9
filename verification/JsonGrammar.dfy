/**
 The decoder against the grammar of RFC 8259 and the words that Python adds to it: a body is read
 exactly when it is a text of the grammar, and then as what that text denotes.

 A `Doc` is one way of writing a value: every space, escape and sign of the text is in it.
 */
module JsonGrammar {
  import opened Prelude
  import opened JsonGuard

  // ---- Texts ----

  datatype Piece =
    | Char(b: Byte)
    // A backslash and a letter.
    | Short(letter: Byte)
    // A backslash, u and four hexadecimal digits.
    | Hex(digits: Body)

  datatype Doc =
    | Word(text: Body)
    | Number(minus: bool, whole: Body, fraction: Body, exponent: Body)
    | Quoted(pieces: seq<Piece>)
    | EmptyList(space: Body)
    | List(items: seq<Item>)
    | EmptyObject(space: Body)
    | Object(entries: seq<Entry>)

  datatype Item = Item(before: Body, doc: Doc, after: Body)

  datatype Entry = Entry(before: Body, key: seq<Piece>, after: Body, value: Item)

  ghost function PieceText(piece: Piece): Body {
    match piece
    case Char(b) => [b]
    case Short(letter) => [0x5C, letter]
    case Hex(digits) => [0x5C, 0x75] + digits
  }

  ghost function PiecesText(pieces: seq<Piece>): Body {
    if pieces == [] then [0x22] else PieceText(pieces[0]) + PiecesText(pieces[1..])
  }

  ghost function DocText(doc: Doc): Body
    decreases doc, 0
  {
    match doc
    case Word(text) => text
    case Number(minus, whole, fraction, exponent) => (if minus then [0x2D] else []) + whole + fraction + exponent
    case Quoted(pieces) => [0x22] + PiecesText(pieces)
    case EmptyList(space) => [0x5B] + space + [0x5D]
    case List(items) => [0x5B] + ItemsText(items)
    case EmptyObject(space) => [0x7B] + space + [0x7D]
    case Object(entries) => [0x7B] + EntriesText(entries)
  }

  ghost function ItemText(item: Item): Body
    decreases item, 1
  {
    item.before + DocText(item.doc) + item.after
  }

  /** The items with commas between them and the closing bracket. */
  ghost function ItemsText(items: seq<Item>): Body
    decreases items, 2
  {
    if items == [] then []
    else ItemText(items[0]) + if |items| == 1 then [0x5D] else [0x2C] + ItemsText(items[1..])
  }

  ghost function EntryText(entry: Entry): Body
    decreases entry, 1
  {
    entry.before + [0x22] + PiecesText(entry.key) + entry.after + [0x3A] + ItemText(entry.value)
  }

  ghost function EntriesText(entries: seq<Entry>): Body
    decreases entries, 2
  {
    if entries == [] then []
    else EntryText(entries[0]) + if |entries| == 1 then [0x7D] else [0x2C] + EntriesText(entries[1..])
  }

  // ---- Which texts are of the grammar ----

  ghost predicate Space(text: Body) {
    forall b | b in text :: b == 0x20 || b == 0x09 || b == 0x0A || b == 0x0D
  }

  ghost predicate Digits(text: Body) {
    forall b | b in text :: 0x30 <= b <= 0x39
  }

  ghost predicate HexDigit(b: int) {
    0x30 <= b <= 0x39 || 0x41 <= b <= 0x46 || 0x61 <= b <= 0x66
  }

  ghost predicate PieceOk(piece: Piece) {
    match piece
    case Char(b) => 0x20 <= b && b != 0x22 && b != 0x5C
    case Short(letter) => letter in [0x22, 0x5C, 0x2F, 0x62, 0x66, 0x6E, 0x72, 0x74]
    case Hex(digits) => |digits| == 4 && forall b | b in digits :: HexDigit(b)
  }

  ghost predicate WordOk(text: Body) {
    || text == [0x6E, 0x75, 0x6C, 0x6C] || text == [0x74, 0x72, 0x75, 0x65] || text == [0x66, 0x61, 0x6C, 0x73, 0x65]
    || text == [0x4E, 0x61, 0x4E] || text == [0x49, 0x6E, 0x66, 0x69, 0x6E, 0x69, 0x74, 0x79]
    || text == [0x2D, 0x49, 0x6E, 0x66, 0x69, 0x6E, 0x69, 0x74, 0x79]
  }

  /** 0, or digits that do not start with one. */
  ghost predicate WholeOk(text: Body) {
    text != [] && Digits(text) && (text[0] == 0x30 ==> |text| == 1)
  }

  ghost predicate FractionOk(text: Body) {
    text == [] || (|text| > 1 && text[0] == 0x2E && Digits(text[1..]))
  }

  ghost predicate ExponentOk(text: Body) {
    text == []
    || (|text| > 1 && (text[0] == 0x65 || text[0] == 0x45)
        && (Digits(text[1..]) || (|text| > 2 && (text[1] == 0x2B || text[1] == 0x2D) && Digits(text[2..]))))
  }

  ghost predicate DocOk(doc: Doc)
    decreases doc, 0
  {
    match doc
    case Word(text) => WordOk(text)
    case Number(minus, whole, fraction, exponent) => WholeOk(whole) && FractionOk(fraction) && ExponentOk(exponent)
    case Quoted(pieces) => forall p | p in pieces :: PieceOk(p)
    case EmptyList(space) => Space(space)
    case List(items) => items != [] && ItemsOk(items)
    case EmptyObject(space) => Space(space)
    case Object(entries) => entries != [] && EntriesOk(entries)
  }

  ghost predicate ItemOk(item: Item)
    decreases item, 1
  {
    Space(item.before) && DocOk(item.doc) && Space(item.after)
  }

  ghost predicate ItemsOk(items: seq<Item>)
    decreases items, 2
  {
    items != [] ==> ItemOk(items[0]) && ItemsOk(items[1..])
  }

  ghost predicate EntryOk(entry: Entry)
    decreases entry, 1
  {
    Space(entry.before) && (forall p | p in entry.key :: PieceOk(p)) && Space(entry.after) && ItemOk(entry.value)
  }

  ghost predicate EntriesOk(entries: seq<Entry>)
    decreases entries, 2
  {
    entries != [] ==> EntryOk(entries[0]) && EntriesOk(entries[1..])
  }

  // ---- What a text denotes ----

  ghost function DigitValue(b: int): (v: nat)
    ensures v < 16
  {
    if 0x30 <= b <= 0x39 then b - 0x30 else if 0x41 <= b <= 0x46 then b - 0x37 else if 0x61 <= b <= 0x66 then b - 0x57 else 0
  }

  ghost function PieceUnit(piece: Piece): Unit {
    match piece
    case Char(b) => b
    case Short(letter) =>
      if letter == 0x62 then 8 else if letter == 0x66 then 12 else if letter == 0x6E then 10
      else if letter == 0x72 then 13 else if letter == 0x74 then 9 else letter
    case Hex(d) =>
      if |d| != 4 then 0
      else DigitValue(d[0]) * 4096 + DigitValue(d[1]) * 256 + DigitValue(d[2]) * 16 + DigitValue(d[3])
  }

  ghost function UnitsOf(pieces: seq<Piece>): seq<Unit> {
    if pieces == [] then [] else [PieceUnit(pieces[0])] + UnitsOf(pieces[1..])
  }

  ghost function ValueOf(doc: Doc): Value<Unit>
    decreases doc, 0
  {
    match doc
    case Word(_) => Scalar
    case Number(_, _, _, _) => Scalar
    case Quoted(pieces) => Str(UnitsOf(pieces))
    case EmptyList(_) => Arr([])
    case List(items) => Arr(ValuesOf(items))
    case EmptyObject(_) => Obj([])
    case Object(entries) => Obj(MembersOf(entries))
  }

  ghost function ValuesOf(items: seq<Item>): seq<Value<Unit>>
    decreases items, 1
  {
    if items == [] then [] else [ValueOf(items[0].doc)] + ValuesOf(items[1..])
  }

  /** Of the entries with one key, as text, the last counts. */
  ghost function MembersOf(entries: seq<Entry>): seq<Member<Unit>>
    decreases entries, 1
  {
    if entries == [] then []
    else
      var later := MembersOf(entries[1..]);
      var key := UnitsOf(entries[0].key);
      if exists m | m in later :: Join(m.key) == Join(key) then later
      else [Member(key, ValueOf(entries[0].value.doc))] + later
  }

  // ---- Places in a body ----

  lemma AtConcat(body: Body, i: nat, a: Body, b: Body)
    ensures HasAt(body, i, a + b) <==> HasAt(body, i, a) && HasAt(body, i + |a|, b)
  {
    if i + |a| + |b| <= |body| {
      assert body[i..i + |a| + |b|] == body[i..i + |a|] + body[i + |a|..i + |a| + |b|];
      if HasAt(body, i, a + b) {
        assert (a + b)[..|a|] == a && (a + b)[|a|..] == b;
        assert body[i..i + |a| + |b|][..|a|] == body[i..i + |a|];
        assert body[i..i + |a| + |b|][|a|..] == body[i + |a|..i + |a| + |b|];
      }
    }
  }

  lemma {:induction false} SkipsSpace(body: Body, i: nat, space: Body)
    requires HasAt(body, i, space) && Space(space)
    requires i + |space| == |body| || !IsSpace(body[i + |space|])
    ensures Skip(body, i) == i + |space|
    decreases |space|
  {
    if space != [] {
      AtConcat(body, i, [space[0]], space[1..]);
      assert [space[0]] + space[1..] == space && space[0] in space && forall b | b in space[1..] :: b in space;
      assert body[i..i + 1] == [body[i]];
      SkipsSpace(body, i + 1, space[1..]);
    }
  }

  lemma {:induction false} SkippedIsSpace(body: Body, i: nat) returns (space: Body)
    requires i <= |body|
    ensures Space(space) && HasAt(body, i, space) && Skip(body, i) == i + |space|
    ensures Skip(body, i) == |body| || !IsSpace(body[Skip(body, i)])
    decreases |body| - i
  {
    if i < |body| && IsSpace(body[i]) {
      var rest := SkippedIsSpace(body, i + 1);
      space := [body[i]] + rest;
      assert body[i..i + 1] == [body[i]];
      AtConcat(body, i, [body[i]], rest);
    } else {
      space := [];
    }
  }

  // ---- Strings ----

  lemma HexIs(body: Body, i: nat, digits: Body)
    requires HasAt(body, i, digits) && |digits| == 4
    ensures FourHex(body, i) <==> PieceOk(Hex(digits))
    ensures FourHex(body, i) ==> UnitAt(body, i) == PieceUnit(Hex(digits))
  {
    assert forall k | 0 <= k < 4 :: digits[k] == body[i + k];
    assert PieceOk(Hex(digits)) <==> HexDigit(digits[0]) && HexDigit(digits[1]) && HexDigit(digits[2]) && HexDigit(digits[3]);
  }

  lemma ShortIs(letter: Byte)
    ensures Escaped(letter).Some? <==> PieceOk(Short(letter))
    ensures Escaped(letter).Some? ==> Escaped(letter).value == PieceUnit(Short(letter))
  {
  }

  /** A written string is read up to its closing quote, as the units of its pieces. */
  lemma {:induction false} StringReads(body: Body, i: nat, pieces: seq<Piece>)
    requires HasAt(body, i, PiecesText(pieces)) && forall p | p in pieces :: PieceOk(p)
    ensures Units(body, i) == Some((UnitsOf(pieces), i + |PiecesText(pieces)|))
    decreases |pieces|
  {
    if pieces == [] {
      assert body[i..i + 1] == [body[i]];
    } else {
      var piece, rest := pieces[0], pieces[1..];
      assert piece in pieces;
      AtConcat(body, i, PieceText(piece), PiecesText(rest));
      StringReads(body, i + |PieceText(piece)|, rest);
      PieceReads(body, i, piece);
    }
  }

  lemma PieceReads(body: Body, i: nat, piece: Piece)
    requires HasAt(body, i, PieceText(piece)) && PieceOk(piece) && i + |PieceText(piece)| < |body|
    ensures Units(body, i) == Prepend(PieceUnit(piece), Units(body, i + |PieceText(piece)|))
  {
    var text := PieceText(piece);
    assert forall k | 0 <= k < |text| :: text[k] == body[i + k];
    match piece
    case Char(b) => assert body[i] == b;
    case Short(letter) =>
      assert body[i] == 0x5C && body[i + 1] == letter;
      ShortIs(letter);
    case Hex(digits) =>
      assert body[i] == 0x5C && body[i + 1] == 0x75;
      AtConcat(body, i, [0x5C, 0x75], digits);
      HexIs(body, i + 2, digits);
  }

  /** What is read as a string was written as one. */
  lemma {:induction false} StringWasWritten(body: Body, i: nat) returns (pieces: seq<Piece>)
    requires Units(body, i).Some?
    ensures forall p | p in pieces :: PieceOk(p)
    ensures HasAt(body, i, PiecesText(pieces)) && Units(body, i) == Some((UnitsOf(pieces), i + |PiecesText(pieces)|))
    decreases |body| - i
  {
    if body[i] == QUOTE {
      pieces := [];
      assert body[i..i + 1] == [body[i]];
    } else {
      var piece := if body[i] != BACKSLASH then Char(body[i])
                   else if body[i + 1] == 0x75 then Hex(body[i + 2..i + 6]) else Short(body[i + 1]);
      PieceWasWritten(body, i, piece);
      PieceReads(body, i, piece);
      hide Units, PieceOk, PieceUnit, HasAt;
      var rest := StringWasWritten(body, i + |PieceText(piece)|);
      AtConcat(body, i, PieceText(piece), PiecesText(rest));
      pieces := [piece] + rest;
      assert pieces[1..] == rest;
    }
  }

  lemma PieceWasWritten(body: Body, i: nat, piece: Piece)
    requires Units(body, i).Some? && body[i] != QUOTE
    requires piece == if body[i] != BACKSLASH then Char(body[i])
                      else if body[i + 1] == 0x75 then Hex(body[i + 2..i + 6]) else Short(body[i + 1])
    ensures PieceOk(piece) && HasAt(body, i, PieceText(piece)) && i + |PieceText(piece)| < |body|
  {
    if body[i] != BACKSLASH {
      assert body[i..i + 1] == [body[i]];
    } else {
      assert body[i..i + 2] == [body[i], body[i + 1]];
      if body[i + 1] == 0x75 {
        HexIs(body, i + 2, body[i + 2..i + 6]);
        AtConcat(body, i, [0x5C, 0x75], body[i + 2..i + 6]);
      } else {
        ShortIs(body[i + 1]);
      }
    }
  }

  // ---- Words and numbers ----

  /** What may follow a value: the end, a space, a comma or a closing bracket. */
  ghost predicate Delimited(body: Body, j: nat) {
    j >= |body| || IsSpace(body[j]) || body[j] in [0x2C, 0x5D, 0x7D]
  }

  lemma WordsAre(body: Body, i: nat)
    requires i < |body|
    ensures WordEnd(body, i, 0) ==
      if HasAt(body, i, WORDS[0]) then Some(i + 4) else if HasAt(body, i, WORDS[1]) then Some(i + 4)
      else if HasAt(body, i, WORDS[2]) then Some(i + 5) else if HasAt(body, i, WORDS[3]) then Some(i + 3)
      else if HasAt(body, i, WORDS[4]) then Some(i + 8) else if HasAt(body, i, WORDS[5]) then Some(i + 9) else None
  {
    assert WordEnd(body, i, 6) == None;
    assert WordEnd(body, i, 5) == if HasAt(body, i, WORDS[5]) then Some(i + 9) else WordEnd(body, i, 6);
    assert WordEnd(body, i, 4) == if HasAt(body, i, WORDS[4]) then Some(i + 8) else WordEnd(body, i, 5);
    assert WordEnd(body, i, 3) == if HasAt(body, i, WORDS[3]) then Some(i + 3) else WordEnd(body, i, 4);
    assert WordEnd(body, i, 2) == if HasAt(body, i, WORDS[2]) then Some(i + 5) else WordEnd(body, i, 3);
    assert WordEnd(body, i, 1) == if HasAt(body, i, WORDS[1]) then Some(i + 4) else WordEnd(body, i, 2);
  }

  lemma FirstOfWord(body: Body, i: nat, word: Body)
    requires HasAt(body, i, word) && word != []
    ensures i + |word| <= |body| && body[i] == word[0] && (|word| > 1 ==> body[i + 1] == word[1])
  {
    assert body[i..i + |word|][0] == body[i];
    if |word| > 1 { assert body[i..i + |word|][1] == body[i + 1]; }
  }

  lemma WordReads(body: Body, i: nat, text: Body)
    requires HasAt(body, i, text) && WordOk(text)
    ensures WordEnd(body, i, 0) == Some(i + |text|)
  {
    FirstOfWord(body, i, text);
    WordsAre(body, i);
    forall k | 0 <= k < 6 && HasAt(body, i, WORDS[k]) ensures body[i] == WORDS[k][0] { FirstOfWord(body, i, WORDS[k]); }
  }

  lemma WordWasWritten(body: Body, i: nat) returns (text: Body)
    requires i < |body| && WordEnd(body, i, 0).Some?
    ensures WordOk(text) && HasAt(body, i, text) && WordEnd(body, i, 0) == Some(i + |text|)
  {
    WordsAre(body, i);
    text := body[i..WordEnd(body, i, 0).value];
  }

  lemma {:induction false} DigitsReads(body: Body, i: nat, text: Body)
    requires HasAt(body, i, text) && Digits(text) && (i + |text| == |body| || !IsDigit(body[i + |text|]))
    ensures DigitsEnd(body, i) == i + |text|
    decreases |text|
  {
    if text != [] {
      AtConcat(body, i, [text[0]], text[1..]);
      assert [text[0]] + text[1..] == text && text[0] in text && forall b | b in text[1..] :: b in text;
      FirstOfWord(body, i, text);
      DigitsReads(body, i + 1, text[1..]);
    }
  }

  lemma {:induction false} DigitsWere(body: Body, i: nat) returns (text: Body)
    requires i <= |body|
    ensures HasAt(body, i, text) && Digits(text) && DigitsEnd(body, i) == i + |text|
    ensures i < |body| && IsDigit(body[i]) ==> text != [] && text[0] == body[i]
    decreases |body| - i
  {
    text := body[i..DigitsEnd(body, i)];
    if i < |body| && IsDigit(body[i]) {
      var rest := DigitsWere(body, i + 1);
      assert text == [body[i]] + rest;
    }
  }

  // The four parts of a number, one after the other.

  ghost function WholeEnd(body: Body, start: nat): nat
    requires start < |body|
  {
    if body[start] == 0x30 then start + 1 else DigitsEnd(body, start)
  }

  ghost function FractionEnd(body: Body, whole: nat): nat {
    if whole + 1 < |body| && body[whole] == 0x2E && IsDigit(body[whole + 1]) then DigitsEnd(body, whole + 1) else whole
  }

  ghost function ExponentEnd(body: Body, fraction: nat): nat {
    if fraction < |body| && (body[fraction] == 0x65 || body[fraction] == 0x45) then
      var sign := if fraction + 1 < |body| && (body[fraction + 1] == 0x2B || body[fraction + 1] == 0x2D)
                  then fraction + 2 else fraction + 1;
      if sign < |body| && IsDigit(body[sign]) then DigitsEnd(body, sign) else fraction
    else fraction
  }

  lemma NumberEndIs(body: Body, i: nat)
    requires i < |body|
    ensures var start := if body[i] == 0x2D then i + 1 else i;
            NumberEnd(body, i) == if start >= |body| || !IsDigit(body[start]) then None
                                  else Some(ExponentEnd(body, FractionEnd(body, WholeEnd(body, start))))
  {
  }

  lemma WholeReads(body: Body, i: nat, text: Body)
    requires HasAt(body, i, text) && WholeOk(text) && (i + |text| == |body| || !IsDigit(body[i + |text|]))
    ensures i < |body| && IsDigit(body[i]) && body[i] == text[0] && WholeEnd(body, i) == i + |text|
  {
    FirstOfWord(body, i, text);
    assert text[0] in text;
    DigitsReads(body, i, text);
  }

  lemma FractionReads(body: Body, i: nat, text: Body)
    requires HasAt(body, i, text) && FractionOk(text) && (i + |text| == |body| || !IsDigit(body[i + |text|]))
    requires text == [] ==> i >= |body| || body[i] != 0x2E
    ensures FractionEnd(body, i) == i + |text|
  {
    if text != [] {
      FirstOfWord(body, i, text);
      assert text[1] in text[1..] && [text[0]] + text[1..] == text;
      AtConcat(body, i, [text[0]], text[1..]);
      DigitsReads(body, i + 1, text[1..]);
    }
  }

  lemma ExponentReads(body: Body, i: nat, text: Body)
    requires HasAt(body, i, text) && ExponentOk(text) && (i + |text| == |body| || !IsDigit(body[i + |text|]))
    requires text == [] ==> i >= |body| || (body[i] != 0x65 && body[i] != 0x45)
    ensures ExponentEnd(body, i) == i + |text|
  {
    if text == [] { return; }
    FirstOfWord(body, i, text);
    if IsDigit(text[1]) {
      AllDigits(text);
      DigitsTail(body, i, text, 1);
    } else {
      assert text[1] in text[1..];
      DigitsTail(body, i, text, 2);
    }
    hide DigitsEnd, HasAt, Digits;
  }

  /** With a digit behind its letter an exponent has no sign. */
  lemma AllDigits(text: Body)
    requires ExponentOk(text) && text != [] && IsDigit(text[1])
    ensures Digits(text[1..])
  {
  }

  lemma DigitsTail(body: Body, i: nat, text: Body, n: nat)
    requires HasAt(body, i, text) && n < |text| && Digits(text[n..])
    requires i + |text| == |body| || !IsDigit(body[i + |text|])
    ensures i + n < |body| && IsDigit(body[i + n]) && DigitsEnd(body, i + n) == i + |text|
  {
    TailAt(body, i, text, n);
    FirstOfWord(body, i + n, text[n..]);
    assert text[n] in text[n..];
    DigitsReads(body, i + n, text[n..]);
    hide HasAt, DigitsEnd;
  }

  lemma TailAt(body: Body, i: nat, text: Body, n: nat)
    requires HasAt(body, i, text) && n <= |text|
    ensures HasAt(body, i + n, text[n..])
  {
    assert text[..n] + text[n..] == text;
    AtConcat(body, i, text[..n], text[n..]);
  }

  /** A written number with a delimiter behind it is read to its end. */
  lemma NumberReads(body: Body, i: nat, minus: bool, whole: Body, fraction: Body, exponent: Body)
    requires WholeOk(whole) && FractionOk(fraction) && ExponentOk(exponent)
    requires HasAt(body, i, DocText(Number(minus, whole, fraction, exponent)))
    requires Delimited(body, i + |DocText(Number(minus, whole, fraction, exponent))|)
    ensures i < |body| && WordEnd(body, i, 0) == None
    ensures NumberEnd(body, i) == Some(i + |DocText(Number(minus, whole, fraction, exponent))|)
    ensures body[i] == 0x2D || IsDigit(body[i])
  {
    hide *;
    var start := i + if minus then 1 else 0;
    NumberParts(body, i, minus, whole, fraction, exponent);
    var end := start + |whole| + |fraction| + |exponent|;
    DelimitedIs(body, end);
    PartsRead(body, start, whole, fraction, exponent);
    MinusIsNoDigit();
    NumberEndIs(body, i);
    NotAWord(body, i);
  }

  lemma MinusIsNoDigit()
    ensures !IsDigit(0x2D)
  {
  }

  lemma DelimitedIs(body: Body, j: nat)
    requires Delimited(body, j)
    ensures j < |body| ==> !IsDigit(body[j]) && body[j] != 0x2E && body[j] != 0x65 && body[j] != 0x45
  {
  }

  /** The parts of a number, one after the other, each read to its end. */
  lemma PartsRead(body: Body, start: nat, whole: Body, fraction: Body, exponent: Body)
    requires WholeOk(whole) && FractionOk(fraction) && ExponentOk(exponent)
    requires HasAt(body, start, whole) && HasAt(body, start + |whole|, fraction)
    requires HasAt(body, start + |whole| + |fraction|, exponent)
    requires var end := start + |whole| + |fraction| + |exponent|;
             end < |body| ==> !IsDigit(body[end]) && body[end] != 0x2E && body[end] != 0x65 && body[end] != 0x45
    ensures start < |body| && IsDigit(body[start])
    ensures ExponentEnd(body, FractionEnd(body, WholeEnd(body, start))) == start + |whole| + |fraction| + |exponent|
  {
    hide *;
    var b, c := start + |whole|, start + |whole| + |fraction|;
    NextPart(body, c, exponent);
    NextPart(body, b, fraction);
    NoPoint(exponent);
    Fits(body, c, exponent);
    WholeReads(body, start, whole);
    FractionReads(body, b, fraction);
    ExponentReads(body, c, exponent);
  }

  lemma NoPoint(text: Body)
    requires ExponentOk(text)
    ensures text != [] ==> text[0] != 0x2E
  {
  }

  lemma NumberParts(body: Body, i: nat, minus: bool, whole: Body, fraction: Body, exponent: Body)
    requires HasAt(body, i, DocText(Number(minus, whole, fraction, exponent))) && WholeOk(whole)
    ensures var a := i + if minus then 1 else 0;
      && i + |DocText(Number(minus, whole, fraction, exponent))| == a + |whole| + |fraction| + |exponent| <= |body|
      && (minus ==> i < |body| && body[i] == 0x2D)
      && HasAt(body, a, whole) && HasAt(body, a + |whole|, fraction) && HasAt(body, a + |whole| + |fraction|, exponent)
  {
    hide *;
    DocIs(Number(minus, whole, fraction, exponent));
    var sign := if minus then [0x2D] else [];
    AtConcat(body, i, sign + whole + fraction, exponent);
    AtConcat(body, i, sign + whole, fraction);
    AtConcat(body, i, sign, whole);
    Fits(body, i, DocText(Number(minus, whole, fraction, exponent)));
    if minus { FirstOfWord(body, i, sign); }
  }

  lemma Fits(body: Body, i: nat, text: Body)
    requires HasAt(body, i, text)
    ensures i + |text| <= |body|
  {
  }

  lemma NoneAt(body: Body, i: nat)
    requires i <= |body|
    ensures HasAt(body, i, [])
  {
  }

  /** What the next part of a number begins with, if it is there. */
  lemma NextPart(body: Body, i: nat, text: Body)
    requires HasAt(body, i, text) && (FractionOk(text) || ExponentOk(text))
    ensures text != [] ==> i < |body| && body[i] == text[0] && !IsDigit(body[i])
  {
    if text != [] { FirstOfWord(body, i, text); }
  }

  lemma NotAWord(body: Body, i: nat)
    requires i < |body| && (IsDigit(body[i]) || (body[i] == 0x2D && i + 1 < |body| && IsDigit(body[i + 1])))
    ensures WordEnd(body, i, 0) == None
  {
    WordsAre(body, i);
    forall k | 0 <= k < 6 ensures !HasAt(body, i, WORDS[k]) {
      if HasAt(body, i, WORDS[k]) { FirstOfWord(body, i, WORDS[k]); }
    }
  }

  // ---- Numbers that were written ----

  lemma FractionWas(body: Body, i: nat) returns (text: Body)
    requires i <= |body|
    ensures HasAt(body, i, text) && FractionOk(text) && FractionEnd(body, i) == i + |text|
  {
    text := [];
    if i + 1 < |body| && body[i] == 0x2E && IsDigit(body[i + 1]) {
      var digits := DigitsWere(body, i + 1);
      text := [0x2E] + digits;
      assert body[i..i + 1] == [0x2E] && text[1..] == digits;
      AtConcat(body, i, [0x2E], digits);
    }
  }

  lemma ExponentWas(body: Body, i: nat) returns (text: Body)
    requires i <= |body|
    ensures HasAt(body, i, text) && ExponentOk(text) && ExponentEnd(body, i) == i + |text|
  {
    text := [];
    if i < |body| && (body[i] == 0x65 || body[i] == 0x45) {
      var n := if i + 1 < |body| && (body[i + 1] == 0x2B || body[i + 1] == 0x2D) then 2 else 1;
      if i + n < |body| && IsDigit(body[i + n]) {
        var digits := DigitsWere(body, i + n);
        text := body[i..i + n] + digits;
        AtConcat(body, i, body[i..i + n], digits);
        hide HasAt, DigitsEnd, Digits;
        ExponentAssembled(body[i..i + n], digits);
      }
    }
  }

  lemma ExponentAssembled(head: Body, digits: Body)
    requires digits != [] && Digits(digits) && 1 <= |head| <= 2 && (head[0] == 0x65 || head[0] == 0x45)
    requires |head| == 2 ==> head[1] == 0x2B || head[1] == 0x2D
    ensures ExponentOk(head + digits)
  {
    assert (head + digits)[|head|..] == digits;
  }

  lemma WholeWas(body: Body, i: nat) returns (text: Body)
    requires i < |body| && IsDigit(body[i])
    ensures HasAt(body, i, text) && WholeOk(text) && WholeEnd(body, i) == i + |text|
  {
    if body[i] == 0x30 {
      text := [0x30];
      assert body[i..i + 1] == text;
    } else {
      text := DigitsWere(body, i);
    }
  }

  lemma NumberWasWritten(body: Body, i: nat) returns (doc: Doc)
    requires i < |body| && NumberEnd(body, i).Some?
    ensures DocOk(doc) && doc.Number? && HasAt(body, i, DocText(doc)) && NumberEnd(body, i) == Some(i + |DocText(doc)|)
  {
    hide *;
    var minus := body[i] == 0x2D;
    var start := i + if minus then 1 else 0;
    NumberEndIs(body, i);
    var whole := WholeWas(body, start);
    var fraction := FractionWas(body, start + |whole|);
    var exponent := ExponentWas(body, start + |whole| + |fraction|);
    doc := Number(minus, whole, fraction, exponent);
    DocIs(doc);
    NumberAssembled(body, i, minus, whole, fraction, exponent);
  }

  lemma NumberAssembled(body: Body, i: nat, minus: bool, whole: Body, fraction: Body, exponent: Body)
    requires i < |body| && (minus ==> body[i] == 0x2D)
    requires var a := i + if minus then 1 else 0;
      HasAt(body, a, whole) && HasAt(body, a + |whole|, fraction) && HasAt(body, a + |whole| + |fraction|, exponent)
    ensures var text := DocText(Number(minus, whole, fraction, exponent));
      HasAt(body, i, text) && i + |text| == i + (if minus then 1 else 0) + |whole| + |fraction| + |exponent|
  {
    hide *;
    DocIs(Number(minus, whole, fraction, exponent));
    var sign := if minus then [0x2D] else [];
    if minus { OneAt(body, i); } else { NoneAt(body, i); }
    AtConcat(body, i, sign, whole);
    AtConcat(body, i, sign + whole, fraction);
    AtConcat(body, i, sign + whole + fraction, exponent);
  }

  // ---- Values ----

  /** A value never begins with a space or with a bracket or comma that would end it. */
  lemma FirstOfDoc(doc: Doc)
    requires DocOk(doc)
    ensures DocText(doc) != []
    ensures !IsSpace(DocText(doc)[0]) && DocText(doc)[0] !in [0x2C, 0x5D, 0x7D, 0x3A]
  {
    if doc.Number? { assert doc.whole[0] in doc.whole; }
  }

  /** One item in its place. */
  lemma ItemParts(body: Body, i: nat, item: Item, tail: Body)
    requires HasAt(body, i, ItemText(item) + tail)
    ensures var at, end := i + |item.before|, i + |item.before| + |DocText(item.doc)|;
      && HasAt(body, i, item.before) && HasAt(body, at, DocText(item.doc)) && HasAt(body, end, item.after)
      && end + |item.after| == i + |ItemText(item)| && HasAt(body, i + |ItemText(item)|, tail)
  {
    AtConcat(body, i, ItemText(item), tail);
    AtConcat(body, i, item.before + DocText(item.doc), item.after);
    AtConcat(body, i, item.before, DocText(item.doc));
    hide HasAt, DocText;
  }

  /** Its spaces are skipped, and its value ends where the text behind it begins. */
  lemma ItemPlaces(body: Body, i: nat, item: Item, tail: Body)
    requires HasAt(body, i, ItemText(item) + tail) && ItemOk(item)
    requires tail != [] && tail[0] in [0x2C, 0x5D, 0x7D]
    ensures var at, end, text := i + |item.before|, i + |item.before| + |DocText(item.doc)|, DocText(item.doc);
      && Skip(body, i) == at < |body| && HasAt(body, at, text)
      && text != [] && body[at] == text[0]
      && end <= |body| && Delimited(body, end) && Skip(body, end) == i + |ItemText(item)| < |body|
      && HasAt(body, i + |ItemText(item)|, tail) && body[i + |ItemText(item)|] == tail[0]
  {
    var at, end, text := i + |item.before|, i + |item.before| + |DocText(item.doc)|, DocText(item.doc);
    ItemParts(body, i, item, tail);
    FirstOfDoc(item.doc);
    FirstOfWord(body, at, text);
    FirstOfWord(body, end + |item.after|, tail);
    AfterValue(body, end, item.after, tail[0]);
    hide HasAt, DocText, DocOk, ItemText, Space, Skip, Delimited;
    SkipsSpace(body, i, item.before);
  }

  lemma AfterValue(body: Body, end: nat, space: Body, next: Byte)
    requires HasAt(body, end, space) && Space(space) && next in [0x2C, 0x5D, 0x7D]
    requires end + |space| < |body| && body[end + |space|] == next
    ensures Delimited(body, end) && Skip(body, end) == end + |space|
  {
    if space != [] {
      FirstOfWord(body, end, space);
      assert space[0] in space;
    }
    SkipsSpace(body, end, space);
  }

  // ---- Written texts are read ----

  /** What a text is made of, by its kind. */
  lemma DocIs(doc: Doc)
    ensures match doc
      case Word(text) => DocText(doc) == text && ValueOf(doc) == Scalar && (DocOk(doc) <==> WordOk(text))
      case Number(minus, whole, fraction, exponent) =>
        DocText(doc) == (if minus then [0x2D] else []) + whole + fraction + exponent
        && ValueOf(doc) == Scalar && (DocOk(doc) <==> WholeOk(whole) && FractionOk(fraction) && ExponentOk(exponent))
      case Quoted(pieces) =>
        DocText(doc) == [0x22] + PiecesText(pieces) && ValueOf(doc) == Str(UnitsOf(pieces))
        && (DocOk(doc) <==> forall p | p in pieces :: PieceOk(p))
      case EmptyList(space) =>
        DocText(doc) == [0x5B] + space + [0x5D] && ValueOf(doc) == Arr([]) && (DocOk(doc) <==> Space(space))
      case List(items) =>
        DocText(doc) == [0x5B] + ItemsText(items) && ValueOf(doc) == Arr(ValuesOf(items))
        && (DocOk(doc) <==> items != [] && ItemsOk(items))
      case EmptyObject(space) =>
        DocText(doc) == [0x7B] + space + [0x7D] && ValueOf(doc) == Obj([]) && (DocOk(doc) <==> Space(space))
      case Object(entries) =>
        DocText(doc) == [0x7B] + EntriesText(entries) && ValueOf(doc) == Obj(MembersOf(entries))
        && (DocOk(doc) <==> entries != [] && EntriesOk(entries))
  {
  }

  /** A written value with a delimiter behind it is read to its end, as what it denotes. */
  lemma {:induction false} DocReads(body: Body, i: nat, doc: Doc)
    requires DocOk(doc) && HasAt(body, i, DocText(doc)) && Delimited(body, i + |DocText(doc)|)
    ensures i < |body| && i + |DocText(doc)| <= |body|
    ensures ParseValue(body, i) == Parsed(ValueOf(doc), i + |DocText(doc)|)
    decreases doc, 0
  {
    hide *;
    DocIs(doc);
    FirstOfDoc(doc);
    FirstOfWord(body, i, DocText(doc));
    match doc
    case Word(text) => WordValueReads(body, i, text);
    case Number(minus, whole, fraction, exponent) => NumberValueReads(body, i, minus, whole, fraction, exponent);
    case Quoted(pieces) => QuotedReads(body, i, pieces);
    case EmptyList(space) => EmptyReads(body, i, space, 0x5B, 0x5D);
    case List(items) =>
      AtConcat(body, i, [0x5B], ItemsText(items));
      ItemsRead(body, i + 1, items);
      ListFold(body, i);
    case EmptyObject(space) => EmptyReads(body, i, space, 0x7B, 0x7D);
    case Object(entries) =>
      AtConcat(body, i, [0x7B], EntriesText(entries));
      EntriesRead(body, i + 1, entries);
      ObjectFold(body, i);
  }

  lemma QuotedReads(body: Body, i: nat, pieces: seq<Piece>)
    requires HasAt(body, i, [0x22] + PiecesText(pieces)) && forall p | p in pieces :: PieceOk(p)
    ensures i < |body| && ParseValue(body, i) == Parsed(Str(UnitsOf(pieces)), i + 1 + |PiecesText(pieces)|)
  {
    AtConcat(body, i, [0x22], PiecesText(pieces));
    FirstOfWord(body, i, [0x22]);
    StringReads(body, i + 1, pieces);
    hide Units, HasAt, PieceOk, PiecesText, UnitsOf;
  }

  lemma WordValueReads(body: Body, i: nat, text: Body)
    requires WordOk(text) && HasAt(body, i, text)
    ensures i < |body| && ParseValue(body, i) == Parsed(Scalar, i + |text|)
  {
    FirstOfWord(body, i, text);
    WordReads(body, i, text);
    hide WordEnd, HasAt, NumberEnd;
  }

  lemma NumberValueReads(body: Body, i: nat, minus: bool, whole: Body, fraction: Body, exponent: Body)
    requires var doc := Number(minus, whole, fraction, exponent);
             DocOk(doc) && HasAt(body, i, DocText(doc)) && Delimited(body, i + |DocText(doc)|)
    ensures i < |body|
    ensures ParseValue(body, i) == Parsed(Scalar, i + |DocText(Number(minus, whole, fraction, exponent))|)
  {
    NumberReads(body, i, minus, whole, fraction, exponent);
    hide WordEnd, HasAt, NumberEnd, DocText, WholeOk, FractionOk, ExponentOk, Delimited;
  }

  lemma EmptyReads(body: Body, i: nat, space: Body, open: Byte, close: Byte)
    requires (open == 0x5B && close == 0x5D) || (open == 0x7B && close == 0x7D)
    requires Space(space) && HasAt(body, i, [open] + space + [close])
    ensures i < |body| && i + |space| + 2 <= |body|
    ensures ParseValue(body, i) == Parsed(if open == 0x5B then Arr([]) else Obj([]), i + |space| + 2)
  {
    AtConcat(body, i, [open] + space, [close]);
    AtConcat(body, i, [open], space);
    FirstOfWord(body, i, [open]);
    FirstOfWord(body, i + 1 + |space|, [close]);
    SkipsSpace(body, i + 1, space);
    hide HasAt, ParseItems, ParseMembers, WordEnd, NumberEnd;
  }

  /** One item, and then the closing bracket or the others. */
  lemma ItemsStep(body: Body, at: nat, value: Value<Unit>, end: nat, others: seq<Value<Unit>>, last: nat)
    requires at <= |body| && end <= |body| && ParseValue(body, at) == Parsed(value, end) && Skip(body, end) < |body|
    ensures body[Skip(body, end)] == 0x5D ==> ParseItems(body, at) == Parsed([value], Skip(body, end) + 1)
    ensures body[Skip(body, end)] == 0x2C && ParseItems(body, Skip(body, Skip(body, end) + 1)) == Parsed(others, last) ==>
      ParseItems(body, at) == Parsed([value] + others, last)
  {
    hide ParseValue;
  }

  lemma ItemsUnfold(items: seq<Item>)
    requires items != [] && ItemsOk(items)
    ensures ItemOk(items[0]) && ItemsOk(items[1..]) && DocOk(items[0].doc)
    ensures ItemsText(items) == ItemText(items[0]) + if |items| == 1 then [0x5D] else [0x2C] + ItemsText(items[1..])
    ensures ValuesOf(items) == [ValueOf(items[0].doc)] + ValuesOf(items[1..]) && (|items| == 1 ==> ValuesOf(items[1..]) == [])
  {
  }

  lemma {:induction false} ItemsRead(body: Body, i: nat, items: seq<Item>)
    requires items != [] && ItemsOk(items) && HasAt(body, i, ItemsText(items)) && i <= |body|
    ensures i + |ItemsText(items)| <= |body| && Skip(body, i) < |body| && body[Skip(body, i)] != 0x5D
    ensures ParseItems(body, Skip(body, i)) == Parsed(ValuesOf(items), i + |ItemsText(items)|)
    decreases items, 2
  {
    hide *;
    var item, rest := items[0], items[1..];
    var tail := if |items| == 1 then [0x5D] else [0x2C] + ItemsText(rest);
    ItemsUnfold(items);
    ItemReads(body, i, item, tail);
    var at, next := Skip(body, i), i + |ItemText(item)|;
    var end := i + |item.before| + |DocText(item.doc)|;
    if |items| > 1 {
      AtConcat(body, next, [0x2C], ItemsText(rest));
      ItemsRead(body, next + 1, rest);
      ItemsStep(body, at, ValueOf(item.doc), end, ValuesOf(rest), next + 1 + |ItemsText(rest)|);
    } else {
      ItemsStep(body, at, ValueOf(item.doc), end, [], 0);
      assert [ValueOf(item.doc)] + [] == [ValueOf(item.doc)];
    }
  }

  lemma StringIs(body: Body, i: nat)
    ensures ParseString(body, i) ==
      if Units(body, i).Some? then Parsed(Units(body, i).value.0, Units(body, i).value.1) else Malformed
  {
    hide Units;
  }

  lemma MemberReads(body: Body, quote: nat, key: seq<Unit>, at: nat, colon: nat, value: Value<Unit>, end: nat)
    requires quote < |body| && body[quote] == 0x22 && ParseString(body, quote + 1) == Parsed(key, at)
    requires at <= |body| && colon == Skip(body, at) < |body| && body[colon] == 0x3A
    requires end <= |body| && ParseValue(body, Skip(body, colon + 1)) == Parsed(value, end)
    ensures ParseMember(body, quote) == Parsed(Member(key, value), Skip(body, end))
  {
    hide ParseValue, Skip, ParseString;
  }

  /** One member, and then the closing brace or the others. */
  lemma MembersStep(body: Body, quote: nat, member: Member<Unit>, next: nat, others: seq<Member<Unit>>, last: nat)
    requires quote <= |body| && ParseMember(body, quote) == Parsed(member, next) && next < |body|
    ensures body[next] == 0x7D ==> ParseMembers(body, quote) == Parsed([member], next + 1)
    ensures body[next] == 0x2C && ParseMembers(body, Skip(body, next + 1)) == Parsed(others, last) ==>
      ParseMembers(body, quote) == Parsed(WithMember(member, others), last)
  {
    hide ParseMember, WithMember, Skip;
  }

  lemma EntriesUnfold(entries: seq<Entry>)
    requires entries != [] && EntriesOk(entries)
    ensures EntryOk(entries[0]) && ItemOk(entries[0].value) && DocOk(entries[0].value.doc) && EntriesOk(entries[1..])
    ensures EntriesText(entries) == EntryText(entries[0]) + if |entries| == 1 then [0x7D] else [0x2C] + EntriesText(entries[1..])
    ensures MembersOf(entries)
         == WithMember(Member(UnitsOf(entries[0].key), ValueOf(entries[0].value.doc)), MembersOf(entries[1..]))
    ensures |entries| == 1 ==>
      MembersOf(entries) == [Member(UnitsOf(entries[0].key), ValueOf(entries[0].value.doc))]
  {
  }

  lemma {:induction false} EntryReads(body: Body, i: nat, entry: Entry, tail: Body)
    requires HasAt(body, i, EntryText(entry) + tail) && EntryOk(entry) && i <= |body|
    requires tail != [] && tail[0] in [0x2C, 0x5D, 0x7D]
    ensures Skip(body, i) < |body| && body[Skip(body, i)] == 0x22
    ensures ParseMember(body, Skip(body, i))
         == Parsed(Member(UnitsOf(entry.key), ValueOf(entry.value.doc)), i + |EntryText(entry)|)
    ensures i + |EntryText(entry)| < |body| && body[i + |EntryText(entry)|] == tail[0]
    ensures HasAt(body, i + |EntryText(entry)|, tail)
    decreases entry, 1
  {
    hide *;
    var quote := i + |entry.before|;
    var behind := quote + 1 + |PiecesText(entry.key)|;
    var colon := behind + |entry.after|;
    KeyPlaces(body, i, entry, tail);
    ItemReads(body, colon + 1, entry.value, tail);
    StringIs(body, quote + 1);
    MemberReads(body, quote, UnitsOf(entry.key), behind, colon, ValueOf(entry.value.doc),
                colon + 1 + |entry.value.before| + |DocText(entry.value.doc)|);
  }

  lemma ItemOkIs(item: Item)
    ensures ItemOk(item) <==> Space(item.before) && DocOk(item.doc) && Space(item.after)
    ensures ItemText(item) == item.before + DocText(item.doc) + item.after
  {
  }

  lemma {:induction false} ItemReads(body: Body, i: nat, item: Item, tail: Body)
    requires HasAt(body, i, ItemText(item) + tail) && ItemOk(item) && i <= |body|
    requires tail != [] && tail[0] in [0x2C, 0x5D, 0x7D]
    ensures var end := i + |item.before| + |DocText(item.doc)|;
      && Skip(body, i) < |body| && end <= |body|
      && ParseValue(body, Skip(body, i)) == Parsed(ValueOf(item.doc), end)
      && Skip(body, end) == i + |ItemText(item)| < |body|
    ensures body[i + |ItemText(item)|] == tail[0] && HasAt(body, i + |ItemText(item)|, tail)
    ensures Skip(body, i) < |body| && body[Skip(body, i)] != 0x5D && body[Skip(body, i)] != 0x7D
    decreases item, 1
  {
    hide *;
    ItemOkIs(item);
    ItemPlaces(body, i, item, tail);
    FirstOfDoc(item.doc);
    DocReads(body, i + |item.before|, item.doc);
  }

  lemma {:induction false} EntriesRead(body: Body, i: nat, entries: seq<Entry>)
    requires entries != [] && EntriesOk(entries) && HasAt(body, i, EntriesText(entries)) && i <= |body|
    ensures i + |EntriesText(entries)| <= |body| && Skip(body, i) < |body| && body[Skip(body, i)] != 0x7D
    ensures ParseMembers(body, Skip(body, i)) == Parsed(MembersOf(entries), i + |EntriesText(entries)|)
    decreases entries, 2
  {
    hide *;
    var entry, rest := entries[0], entries[1..];
    EntriesUnfold(entries);
    var member, next := Member(UnitsOf(entry.key), ValueOf(entry.value.doc)), i + |EntryText(entry)|;
    if |entries| > 1 {
      EntryReads(body, i, entry, [0x2C] + EntriesText(rest));
      AtConcat(body, next, [0x2C], EntriesText(rest));
      EntriesRead(body, next + 1, rest);
      MembersStep(body, Skip(body, i), member, next, MembersOf(rest), next + 1 + |EntriesText(rest)|);
    } else {
      EntryReads(body, i, entry, [0x7D]);
      MembersStep(body, Skip(body, i), member, next, [], 0);
    }
  }

  /** The key of an entry is read, and the colon behind it found. */
  lemma KeyPlaces(body: Body, i: nat, entry: Entry, tail: Body)
    requires HasAt(body, i, EntryText(entry) + tail) && EntryOk(entry) && tail != []
    ensures var quote := i + |entry.before|; var colon := quote + 1 + |PiecesText(entry.key)| + |entry.after|;
      && Skip(body, i) == quote < |body| && body[quote] == 0x22
      && Units(body, quote + 1) == Some((UnitsOf(entry.key), quote + 1 + |PiecesText(entry.key)|))
      && quote + 1 + |PiecesText(entry.key)| <= |body|
      && Skip(body, quote + 1 + |PiecesText(entry.key)|) == colon < |body| && body[colon] == 0x3A
      && HasAt(body, colon + 1, ItemText(entry.value) + tail)
      && colon + 1 + |ItemText(entry.value)| == i + |EntryText(entry)| && ItemOk(entry.value)
  {
    hide *;
    var quote := i + |entry.before|; var colon := quote + 1 + |PiecesText(entry.key)| + |entry.after|;
    EntryOkIs(entry);
    EntryParts(body, i, entry, tail);
    FirstOfWord(body, quote, [0x22]);
    FirstOfWord(body, colon, [0x3A]);
    StringReads(body, quote + 1, entry.key);
    SkipsSpace(body, i, entry.before);
    SkipsSpace(body, quote + 1 + |PiecesText(entry.key)|, entry.after);
  }

  lemma EntryOkIs(entry: Entry)
    ensures EntryOk(entry) <==>
      Space(entry.before) && (forall p | p in entry.key :: PieceOk(p)) && Space(entry.after) && ItemOk(entry.value)
    ensures EntryText(entry) == entry.before + [0x22] + PiecesText(entry.key) + entry.after + [0x3A] + ItemText(entry.value)
    ensures !IsSpace(0x22) && !IsSpace(0x3A)
  {
  }

  lemma EntryParts(body: Body, i: nat, entry: Entry, tail: Body)
    requires HasAt(body, i, EntryText(entry) + tail)
    ensures var quote := i + |entry.before|; var colon := quote + 1 + |PiecesText(entry.key)| + |entry.after|;
      && HasAt(body, i, entry.before) && HasAt(body, quote, [0x22]) && HasAt(body, quote + 1, PiecesText(entry.key))
      && HasAt(body, quote + 1 + |PiecesText(entry.key)|, entry.after) && HasAt(body, colon, [0x3A])
      && HasAt(body, colon + 1, ItemText(entry.value) + tail)
      && colon + 1 + |ItemText(entry.value)| == i + |EntryText(entry)|
  {
    hide *;
    EntryOkIs(entry);
    var a := entry.before + [0x22];
    var b := a + PiecesText(entry.key);
    var c := b + entry.after;
    var d := c + [0x3A];
    assert EntryText(entry) + tail == d + (ItemText(entry.value) + tail);
    AtConcat(body, i, d, ItemText(entry.value) + tail);
    AtConcat(body, i, c, [0x3A]);
    AtConcat(body, i, b, entry.after);
    AtConcat(body, i, a, PiecesText(entry.key));
    AtConcat(body, i, entry.before, [0x22]);
  }

  // ---- What is read was written ----

  /** What is read as a value is a text of the grammar. */
  lemma {:induction false} DocWasWritten(body: Body, i: nat) returns (doc: Doc)
    requires i <= |body| && ParseValue(body, i).Parsed?
    ensures DocOk(doc) && HasAt(body, i, DocText(doc)) && ParseValue(body, i) == Parsed(ValueOf(doc), i + |DocText(doc)|)
    decreases |body| - i, 1
  {
    assert i < |body| && body[i..i + 1] == [body[i]];
    if body[i] == QUOTE {
      var pieces := StringWasWritten(body, i + 1);
      AtConcat(body, i, [0x22], PiecesText(pieces));
      doc := Quoted(pieces);
      hide Units, HasAt, PiecesText;
    } else if body[i] == 0x5B {
      doc := ListWasWritten(body, i);
    } else if body[i] == 0x7B {
      doc := ObjectWasWritten(body, i);
    } else if WordEnd(body, i, 0).Some? {
      var text := WordWasWritten(body, i);
      doc := Word(text);
      hide WordEnd, HasAt, NumberEnd;
    } else {
      doc := NumberWasWritten(body, i);
      hide WordEnd, HasAt, NumberEnd, DocText;
    }
  }

  lemma BracketAt(body: Body, i: nat, space: Body, close: Byte)
    requires HasAt(body, i + 1, space) && i + 1 + |space| < |body| && body[i + 1 + |space|] == close
    ensures HasAt(body, i, [body[i]] + space + [close])
  {
    assert body[i..i + 1] == [body[i]] && body[i + 1 + |space|..i + 2 + |space|] == [close];
    AtConcat(body, i, [body[i]], space);
    AtConcat(body, i, [body[i]] + space, [close]);
  }

  lemma ListFold(body: Body, i: nat)
    requires i < |body| && body[i] == 0x5B
    ensures var first := Skip(body, i + 1);
      ParseValue(body, i) ==
        if first < |body| && body[first] == 0x5D then Parsed(Arr([]), first + 1)
        else if ParseItems(body, first).Malformed? then Malformed
        else Parsed(Arr(ParseItems(body, first).value), ParseItems(body, first).end)
  {
    hide ParseItems, Skip;
  }

  lemma ObjectFold(body: Body, i: nat)
    requires i < |body| && body[i] == 0x7B
    ensures var first := Skip(body, i + 1);
      ParseValue(body, i) ==
        if first < |body| && body[first] == 0x7D then Parsed(Obj([]), first + 1)
        else if ParseMembers(body, first).Malformed? then Malformed
        else Parsed(Obj(ParseMembers(body, first).value), ParseMembers(body, first).end)
  {
    hide ParseMembers, Skip;
  }

  lemma {:induction false} ListWasWritten(body: Body, i: nat) returns (doc: Doc)
    requires i < |body| && body[i] == 0x5B && ParseValue(body, i).Parsed?
    ensures DocOk(doc) && HasAt(body, i, DocText(doc)) && ParseValue(body, i) == Parsed(ValueOf(doc), i + |DocText(doc)|)
    decreases |body| - i, 0
  {
    hide ParseValue, ParseItems, ItemsText, ItemsOk, ValuesOf, HasAt, Skip, Space;
    var first := Skip(body, i + 1);
    ListFold(body, i);
    if first < |body| && body[first] == 0x5D {
      var space := SkippedIsSpace(body, i + 1);
      BracketAt(body, i, space, 0x5D);
      doc := EmptyList(space);
    } else {
      var items := ItemsWereWritten(body, i + 1);
      OneAt(body, i);
      AtConcat(body, i, [0x5B], ItemsText(items));
      doc := List(items);
    }
  }

  lemma {:induction false} ObjectWasWritten(body: Body, i: nat) returns (doc: Doc)
    requires i < |body| && body[i] == 0x7B && ParseValue(body, i).Parsed?
    ensures DocOk(doc) && HasAt(body, i, DocText(doc)) && ParseValue(body, i) == Parsed(ValueOf(doc), i + |DocText(doc)|)
    decreases |body| - i, 0
  {
    hide ParseValue, ParseMembers, EntriesText, EntriesOk, MembersOf, HasAt, Skip, Space;
    var first := Skip(body, i + 1);
    ObjectFold(body, i);
    if first < |body| && body[first] == 0x7D {
      var space := SkippedIsSpace(body, i + 1);
      BracketAt(body, i, space, 0x7D);
      doc := EmptyObject(space);
    } else {
      var entries := EntriesWereWritten(body, i + 1);
      OneAt(body, i);
      AtConcat(body, i, [0x7B], EntriesText(entries));
      doc := Object(entries);
    }
  }

  /** An item that was read with the spaces around it, and what stands behind. */
  lemma {:induction false} ItemWasWritten(body: Body, i: nat) returns (item: Item)
    requires i <= |body| && ParseValue(body, Skip(body, i)).Parsed?
    ensures ItemOk(item) && HasAt(body, i, ItemText(item)) && i + |item.before| == Skip(body, i)
    ensures ParseValue(body, Skip(body, i)) == Parsed(ValueOf(item.doc), i + |item.before| + |DocText(item.doc)|)
    ensures Skip(body, ParseValue(body, Skip(body, i)).end) == i + |ItemText(item)|
    decreases |body| - i, 2
  {
    hide *;
    var before := SkippedIsSpace(body, i);
    var doc := DocWasWritten(body, Skip(body, i));
    var after := SkippedIsSpace(body, ParseValue(body, Skip(body, i)).end);
    item := Item(before, doc, after);
    ItemOkIs(item);
    AtConcat(body, i, before, DocText(doc));
    AtConcat(body, i, before + DocText(doc), after);
  }

  lemma {:induction false} ItemsWereWritten(body: Body, i: nat) returns (items: seq<Item>)
    requires i <= |body| && ParseItems(body, Skip(body, i)).Parsed?
    ensures items != [] && ItemsOk(items) && HasAt(body, i, ItemsText(items))
    ensures ParseItems(body, Skip(body, i)) == Parsed(ValuesOf(items), i + |ItemsText(items)|)
    decreases |body| - i, 3
  {
    hide *;
    var at := Skip(body, i);
    ItemsFold(body, at);
    var item := ItemWasWritten(body, i);
    var next := i + |ItemText(item)|;
    OneAt(body, next);
    if body[next] == 0x5D {
      items := [item];
      LastItem(item);
      AtConcat(body, i, ItemText(item), [0x5D]);
    } else {
      var rest := ItemsWereWritten(body, next + 1);
      items := [item] + rest;
      ItemsGrow(item, rest);
      AtConcat(body, next, [0x2C], ItemsText(rest));
      AtConcat(body, i, ItemText(item), [0x2C] + ItemsText(rest));
    }
  }

  lemma LastItem(item: Item)
    requires ItemOk(item)
    ensures ItemsOk([item]) && ItemsText([item]) == ItemText(item) + [0x5D] && ValuesOf([item]) == [ValueOf(item.doc)]
  {
    assert [item][1..] == [];
  }

  lemma ItemsGrow(item: Item, rest: seq<Item>)
    requires ItemOk(item) && ItemsOk(rest) && rest != []
    ensures ItemsOk([item] + rest) && ItemsText([item] + rest) == ItemText(item) + ([0x2C] + ItemsText(rest))
    ensures ValuesOf([item] + rest) == [ValueOf(item.doc)] + ValuesOf(rest)
  {
    assert ([item] + rest)[1..] == rest;
  }

  /** What parsing items found: a value, and behind it the bracket or a comma and more items. */
  lemma ItemsFold(body: Body, at: nat)
    requires at <= |body| && ParseItems(body, at).Parsed?
    ensures ParseValue(body, at).Parsed?
    ensures var next := Skip(body, ParseValue(body, at).end);
      && next < |body| && (body[next] == 0x5D || body[next] == 0x2C)
      && (body[next] == 0x5D ==> ParseItems(body, at) == Parsed([ParseValue(body, at).value], next + 1))
      && (body[next] == 0x2C ==>
            ParseItems(body, Skip(body, next + 1)).Parsed?
            && ParseItems(body, at) == Parsed([ParseValue(body, at).value] + ParseItems(body, Skip(body, next + 1)).value,
                                              ParseItems(body, Skip(body, next + 1)).end))
  {
    hide ParseValue, Skip;
  }

  lemma MemberFold(body: Body, quote: nat)
    requires quote <= |body| && ParseMember(body, quote).Parsed?
    ensures quote < |body| && body[quote] == 0x22 && Units(body, quote + 1).Some?
    ensures var read := Units(body, quote + 1).value; var colon := Skip(body, read.1);
      && colon < |body| && body[colon] == 0x3A && ParseValue(body, Skip(body, colon + 1)).Parsed?
      && (var value := ParseValue(body, Skip(body, colon + 1));
          ParseMember(body, quote) == Parsed(Member(read.0, value.value), Skip(body, value.end)))
  {
    StringIs(body, quote + 1);
    hide ParseValue, Skip, Units, ParseString;
  }

  lemma MembersFold(body: Body, quote: nat)
    requires quote <= |body| && ParseMembers(body, quote).Parsed?
    ensures ParseMember(body, quote).Parsed?
    ensures var first := ParseMember(body, quote); var next := first.end;
      && next < |body| && (body[next] == 0x7D || body[next] == 0x2C)
      && (body[next] == 0x7D ==> ParseMembers(body, quote) == Parsed([first.value], next + 1))
      && (body[next] == 0x2C ==>
            ParseMembers(body, Skip(body, next + 1)).Parsed?
            && ParseMembers(body, quote) == Parsed(WithMember(first.value, ParseMembers(body, Skip(body, next + 1)).value),
                                                   ParseMembers(body, Skip(body, next + 1)).end))
  {
    hide ParseMember, Skip, WithMember;
  }

  lemma {:induction false} EntriesWereWritten(body: Body, i: nat) returns (entries: seq<Entry>)
    requires i <= |body| && ParseMembers(body, Skip(body, i)).Parsed?
    ensures entries != [] && EntriesOk(entries) && HasAt(body, i, EntriesText(entries))
    ensures ParseMembers(body, Skip(body, i)) == Parsed(MembersOf(entries), i + |EntriesText(entries)|)
    decreases |body| - i, 3
  {
    hide *;
    var quote := Skip(body, i);
    MembersFold(body, quote);
    MemberFold(body, quote);
    var before := SkippedIsSpace(body, i);
    var pieces := StringWasWritten(body, quote + 1);
    var behind := quote + 1 + |PiecesText(pieces)|;
    var after := SkippedIsSpace(body, behind);
    var colon := Skip(body, behind);
    var item := ItemWasWritten(body, colon + 1);
    var entry := Entry(before, pieces, after, item);
    EntryAssembled(body, i, entry);
    var next := i + |EntryText(entry)|;
    OneAt(body, next);
    if body[next] == 0x7D {
      entries := [entry];
      LastEntry(entry);
      AtConcat(body, i, EntryText(entry), [0x7D]);
    } else {
      var rest := EntriesWereWritten(body, next + 1);
      entries := [entry] + rest;
      EntriesGrow(entry, rest);
      AtConcat(body, next, [0x2C], EntriesText(rest));
      AtConcat(body, i, EntryText(entry), [0x2C] + EntriesText(rest));
    }
  }

  lemma OneAt(body: Body, i: nat)
    requires i < |body|
    ensures HasAt(body, i, [body[i]])
  {
    assert body[i..i + 1] == [body[i]];
  }

  lemma LastEntry(entry: Entry)
    requires EntryOk(entry)
    ensures EntriesOk([entry]) && EntriesText([entry]) == EntryText(entry) + [0x7D]
    ensures MembersOf([entry]) == [Member(UnitsOf(entry.key), ValueOf(entry.value.doc))]
  {
    assert [entry][1..] == [];
  }

  lemma EntriesGrow(entry: Entry, rest: seq<Entry>)
    requires EntryOk(entry) && EntriesOk(rest) && rest != []
    ensures EntriesOk([entry] + rest) && EntriesText([entry] + rest) == EntryText(entry) + ([0x2C] + EntriesText(rest))
    ensures MembersOf([entry] + rest) == WithMember(Member(UnitsOf(entry.key), ValueOf(entry.value.doc)), MembersOf(rest))
  {
    assert ([entry] + rest)[1..] == rest;
  }

  lemma EntryAssembled(body: Body, i: nat, entry: Entry)
    requires Space(entry.before) && Space(entry.after) && ItemOk(entry.value) && forall p | p in entry.key :: PieceOk(p)
    requires var quote := i + |entry.before|; var colon := quote + 1 + |PiecesText(entry.key)| + |entry.after|;
      && HasAt(body, i, entry.before) && quote < |body| && body[quote] == 0x22 && HasAt(body, quote + 1, PiecesText(entry.key))
      && HasAt(body, quote + 1 + |PiecesText(entry.key)|, entry.after) && colon < |body| && body[colon] == 0x3A
      && HasAt(body, colon + 1, ItemText(entry.value))
    ensures EntryOk(entry) && HasAt(body, i, EntryText(entry))
    ensures i + |EntryText(entry)|
         == i + |entry.before| + 1 + |PiecesText(entry.key)| + |entry.after| + 1 + |ItemText(entry.value)|
  {
    hide *;
    EntryOkIs(entry);
    OneAt(body, i + |entry.before|);
    OneAt(body, i + |entry.before| + 1 + |PiecesText(entry.key)| + |entry.after|);
    var a := entry.before + [0x22];
    var b := a + PiecesText(entry.key);
    var c := b + entry.after;
    var d := c + [0x3A];
    AtConcat(body, i, entry.before, [0x22]);
    AtConcat(body, i, a, PiecesText(entry.key));
    AtConcat(body, i, b, entry.after);
    AtConcat(body, i, c, [0x3A]);
    AtConcat(body, i, d, ItemText(entry.value));
  }
}
