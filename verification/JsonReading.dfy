/** The whole body: it is read exactly when it is a text of the grammar, and what the fast path looks for. */
module JsonReading {
  import opened Prelude
  import opened JsonGuard
  import opened JsonGrammar

  // ---- The fast path ----

  ghost predicate SurrogateEscapeAt(body: Body, i: nat) {
    && i + 6 <= |body| && body[i] == 0x5C && (body[i + 1] == 0x75 || body[i + 1] == 0x55)
    && PieceOk(Hex(body[i + 2..i + 6])) && 0xD800 <= PieceUnit(Hex(body[i + 2..i + 6])) <= 0xDFFF
  }

  /** The pattern's classes of characters are the four digits of a surrogate. */
  lemma PatternIs(body: Body, i: nat)
    ensures EscapeAt(body, i) <==> SurrogateEscapeAt(body, i)
  {
    if i + 6 <= |body| {
      var d := body[i + 2..i + 6];
      assert d[0] == body[i + 2] && d[1] == body[i + 3] && d[2] == body[i + 4] && d[3] == body[i + 5];
      assert PieceOk(Hex(d)) <==> HexDigit(d[0]) && HexDigit(d[1]) && HexDigit(d[2]) && HexDigit(d[3]);
      SurrogateDigits(d[0], d[1], d[2], d[3]);
    }
    hide DigitValue;
  }

  lemma SurrogateDigits(a: int, b: int, c: int, d: int)
    ensures 0xD800 <= DigitValue(a) * 4096 + DigitValue(b) * 256 + DigitValue(c) * 16 + DigitValue(d) <= 0xDFFF
       <==> (a == 0x64 || a == 0x44) && (b == 0x38 || b == 0x39 || 0x61 <= b <= 0x66 || 0x41 <= b <= 0x46)
  {
    var high, next, low := DigitValue(a), DigitValue(b), DigitValue(c) * 16 + DigitValue(d);
    assert 0 <= low < 256;
    assert high == 13 <==> a == 0x64 || a == 0x44;
    assert next >= 8 <==> b == 0x38 || b == 0x39 || 0x61 <= b <= 0x66 || 0x41 <= b <= 0x46;
    hide DigitValue;
  }

  /** What the fast path looks for before it decodes: an escape of a surrogate, or a byte that is not plain ASCII. */
  lemma FastPathLooksFor(body: Body)
    ensures MayHoldSurrogate(body) <==>
      (exists i: nat :: SurrogateEscapeAt(body, i)) || exists b | b in body :: b >= 128 || b == 0
  {
    forall i: nat ensures EscapeAt(body, i) <==> SurrogateEscapeAt(body, i) { PatternIs(body, i); }
    if i: nat :| SurrogateEscapeAt(body, i) { assert EscapeAt(body, i) && i < |body|; }
    hide EscapeAt, SurrogateEscapeAt;
  }

  // ---- The whole body ----

  /**
   A body is read exactly when it is a text of the grammar with nothing but space around it, and it is
   read as what that text denotes.
   */
  lemma ReadIsTheGrammar(body: Body, value: Value<Unit>)
    ensures Read(body) == Some(value) <==>
      exists item :: ItemOk(item) && body == ItemText(item) && ValueOf(item.doc) == value
  {
    if Read(body) == Some(value) {
      var item := ItemWasWritten(body, 0);
      assert body[0..0 + |ItemText(item)|] == body;
      assert body == ItemText(item);
    }
    if item :| ItemOk(item) && body == ItemText(item) && ValueOf(item.doc) == value {
      TextReads(body, item);
    }
  }

  lemma TextReads(body: Body, item: Item)
    requires ItemOk(item) && body == ItemText(item)
    ensures Read(body) == Some(ValueOf(item.doc))
  {
    var at, end := |item.before|, |item.before| + |DocText(item.doc)|;
    hide ParseValue, Skip, DocText, DocOk, Space, ItemText, ItemOk, HasAt, Delimited, ValueOf;
    SpacesAround(body, item);
    DocReads(body, at, item.doc);
  }

  lemma SpacesAround(body: Body, item: Item)
    requires ItemOk(item) && body == ItemText(item)
    ensures var at, end := |item.before|, |item.before| + |DocText(item.doc)|;
      && Skip(body, 0) == at <= |body| && HasAt(body, at, DocText(item.doc)) && DocOk(item.doc)
      && end <= |body| && Delimited(body, end) && Skip(body, end) == |body|
  {
    hide *;
    var at, end := |item.before|, |item.before| + |DocText(item.doc)|;
    ItemOkIs(item);
    WholeAt(body);
    AtConcat(body, 0, item.before + DocText(item.doc), item.after);
    AtConcat(body, 0, item.before, DocText(item.doc));
    FirstOfDoc(item.doc);
    FirstOfWord(body, at, DocText(item.doc));
    SkipsSpace(body, 0, item.before);
    SpaceAtEnd(body, end, item.after);
  }

  lemma WholeAt(body: Body)
    ensures HasAt(body, 0, body)
  {
    assert body[0..0 + |body|] == body;
  }

  lemma SpaceAtEnd(body: Body, end: nat, space: Body)
    requires HasAt(body, end, space) && Space(space) && end + |space| == |body|
    ensures Delimited(body, end) && Skip(body, end) == |body|
  {
    if space != [] {
      FirstOfWord(body, end, space);
      assert space[0] in space;
    }
    SkipsSpace(body, end, space);
  }
}
