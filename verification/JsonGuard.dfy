/**
 The surrogate guard of `app/core/json_guard.py` and a decoder for the bodies its fast
 path lets through: ASCII JSON text, RFC 8259 section 7 for the strings.
 */
module JsonGuard {
  import opened Prelude

  type Byte = b: int | 0 <= b < 256
  type Unit = u: int | 0 <= u < 0x10000
  type Body = seq<Byte>
  type CodePoints = seq<int>

  const QUOTE := 34
  const BACKSLASH := 92

  // Strings are read as code units and joined into code points, so that an unpaired surrogate
  // can stand in decoded text.
  datatype Value<T> =
    | Scalar
    | Str(text: seq<T>)
    | Arr(items: seq<Value<T>>)
    | Obj(members: seq<Member<T>>)

  datatype Member<T> = Member(key: seq<T>, value: Value<T>)

  // ---- Surrogates ----

  predicate IsHigh(c: int) {
    0xD800 <= c <= 0xDBFF
  }

  predicate IsLow(c: int) {
    0xDC00 <= c <= 0xDFFF
  }

  predicate IsSurrogate(c: int) {
    0xD800 <= c <= 0xDFFF
  }

  predicate TextHasSurrogate(text: CodePoints) {
    exists c | c in text :: IsSurrogate(c)
  }

  predicate HasLoneSurrogate(value: Value<int>)
    decreases value, 0
  {
    match value
    case Scalar => false
    case Str(text) => TextHasSurrogate(text)
    case Arr(items) => AnyItem(items)
    case Obj(members) => AnyMember(members)
  }

  predicate AnyItem(items: seq<Value<int>>)
    decreases items, 1
  {
    items != [] && (HasLoneSurrogate(items[0]) || AnyItem(items[1..]))
  }

  predicate AnyMember(members: seq<Member<int>>)
    decreases members, 1
  {
    members != []
    && (TextHasSurrogate(members[0].key) || HasLoneSurrogate(members[0].value) || AnyMember(members[1..]))
  }

  // ---- The fast path ----

  predicate IsHex(b: int) {
    0x30 <= b <= 0x39 || 0x41 <= b <= 0x46 || 0x61 <= b <= 0x66
  }

  function HexValue(b: int): (v: nat)
    requires IsHex(b)
    ensures v < 16
  {
    if b <= 0x39 then b - 0x30 else if b <= 0x46 then b - 0x41 + 10 else b - 0x61 + 10
  }

  /** \\[uU][dD][89a-fA-F][0-9a-fA-F]{2} at one position. */
  predicate EscapeAt(body: Body, i: nat) {
    i + 6 <= |body| && body[i] == BACKSLASH && (body[i + 1] == 0x75 || body[i + 1] == 0x55)
    && (body[i + 2] == 0x64 || body[i + 2] == 0x44)
    && (body[i + 3] == 0x38 || body[i + 3] == 0x39 || 0x61 <= body[i + 3] <= 0x66 || 0x41 <= body[i + 3] <= 0x46)
    && IsHex(body[i + 4]) && IsHex(body[i + 5])
  }

  predicate MayHoldSurrogate(body: Body) {
    (exists i | 0 <= i < |body| :: EscapeAt(body, i)) || (exists b | b in body :: b >= 128) || 0 in body
  }

  /** json.loads: a value, or ValueError. */
  type Decoder = Body -> Option<Value<int>>

  predicate BodyHasLoneSurrogate(body: Body, loads: Decoder) {
    MayHoldSurrogate(body)
    && match loads(body) { case None => false case Some(value) => HasLoneSurrogate(value) }
  }

  // ---- Strings: escapes to code units, code units to code points ----

  predicate FourHex(body: Body, i: nat) {
    i + 4 <= |body| && IsHex(body[i]) && IsHex(body[i + 1]) && IsHex(body[i + 2]) && IsHex(body[i + 3])
  }

  function UnitAt(body: Body, i: nat): Unit
    requires FourHex(body, i)
  {
    HexValue(body[i]) * 4096 + HexValue(body[i + 1]) * 256 + HexValue(body[i + 2]) * 16 + HexValue(body[i + 3])
  }

  function Escaped(b: Byte): Option<Unit> {
    if b == QUOTE || b == BACKSLASH || b == 0x2F then Some(b)
    else if b == 0x62 then Some(8)
    else if b == 0x66 then Some(12)
    else if b == 0x6E then Some(10)
    else if b == 0x72 then Some(13)
    else if b == 0x74 then Some(9)
    else None
  }

  /** The code units of a string from inside its quotes to its end, and where it ends. */
  function Units(body: Body, i: nat): (r: Option<(seq<Unit>, nat)>)
    ensures r.Some? ==> i < r.value.1 <= |body|
    decreases |body| - i
  {
    if i >= |body| || body[i] < 0x20 then None
    else if body[i] == QUOTE then Some(([], i + 1))
    else if body[i] != BACKSLASH then Prepend(body[i], Units(body, i + 1))
    else if i + 1 >= |body| then None
    else if body[i + 1] == 0x75 then
      if FourHex(body, i + 2) then Prepend(UnitAt(body, i + 2), Units(body, i + 6)) else None
    else
      var c := Escaped(body[i + 1]);
      if c.Some? then Prepend(c.value, Units(body, i + 2)) else None
  }

  function Prepend(unit: Unit, rest: Option<(seq<Unit>, nat)>): Option<(seq<Unit>, nat)> {
    if rest.Some? then Some(([unit] + rest.value.0, rest.value.1)) else None
  }

  function Astral(high: int, low: int): int {
    0x10000 + (high - 0xD800) * 0x400 + (low - 0xDC00)
  }

  /** A high unit directly followed by a low one is one character; any other surrogate stays alone. */
  function Join(units: seq<Unit>): CodePoints {
    if units == [] then []
    else if |units| >= 2 && IsHigh(units[0]) && IsLow(units[1])
    then [Astral(units[0], units[1])] + Join(units[2..])
    else [units[0]] + Join(units[1..])
  }

  function Joined(raw: Value<Unit>): Value<int>
    decreases raw, 0
  {
    match raw
    case Scalar => Scalar
    case Str(units) => Str(Join(units))
    case Arr(items) => Arr(JoinedItems(items))
    case Obj(members) => Obj(JoinedMembers(members))
  }

  function JoinedItems(items: seq<Value<Unit>>): seq<Value<int>>
    decreases items, 1
  {
    if items == [] then [] else [Joined(items[0])] + JoinedItems(items[1..])
  }

  function JoinedMembers(members: seq<Member<Unit>>): seq<Member<int>>
    decreases members, 1
  {
    if members == [] then []
    else [Member(Join(members[0].key), Joined(members[0].value))] + JoinedMembers(members[1..])
  }

  // ---- Values ----

  predicate IsSpace(b: int) {
    b == 0x20 || b == 0x09 || b == 0x0A || b == 0x0D
  }

  function Skip(body: Body, i: nat): (j: nat)
    requires i <= |body|
    ensures i <= j <= |body|
    decreases |body| - i
  {
    if i < |body| && IsSpace(body[i]) then Skip(body, i + 1) else i
  }

  predicate IsDigit(b: int) {
    0x30 <= b <= 0x39
  }

  predicate HasAt(body: Body, i: nat, word: Body) {
    i + |word| <= |body| && body[i..i + |word|] == word
  }

  // Python accepts these words besides the three of RFC 8259.
  const WORDS: seq<Body> := [
    [0x6E, 0x75, 0x6C, 0x6C], [0x74, 0x72, 0x75, 0x65], [0x66, 0x61, 0x6C, 0x73, 0x65],
    [0x4E, 0x61, 0x4E], [0x49, 0x6E, 0x66, 0x69, 0x6E, 0x69, 0x74, 0x79],
    [0x2D, 0x49, 0x6E, 0x66, 0x69, 0x6E, 0x69, 0x74, 0x79]]

  /** The end of a literal name at i. */
  function WordEnd(body: Body, i: nat, k: nat): (end: Option<nat>)
    requires k <= |WORDS|
    ensures end.Some? ==> i < end.value <= |body|
    decreases |WORDS| - k
  {
    if k == |WORDS| then None
    else if HasAt(body, i, WORDS[k]) && WORDS[k] != [] then Some(i + |WORDS[k]|)
    else WordEnd(body, i, k + 1)
  }

  function DigitsEnd(body: Body, i: nat): (j: nat)
    requires i <= |body|
    ensures i <= j <= |body|
    decreases |body| - i
  {
    if i < |body| && IsDigit(body[i]) then DigitsEnd(body, i + 1) else i
  }

  /** -?(0|[1-9][0-9]*)(\.[0-9]+)?([eE][-+]?[0-9]+)? as far as it matches. */
  function NumberEnd(body: Body, i: nat): (end: Option<nat>)
    requires i <= |body|
    ensures end.Some? ==> i < end.value <= |body|
  {
    var start := if i < |body| && body[i] == 0x2D then i + 1 else i;
    if start >= |body| || !IsDigit(body[start]) then None
    else
      var whole := if body[start] == 0x30 then start + 1 else DigitsEnd(body, start);
      var fraction := if whole + 1 < |body| && body[whole] == 0x2E && IsDigit(body[whole + 1])
                      then DigitsEnd(body, whole + 1) else whole;
      if fraction < |body| && (body[fraction] == 0x65 || body[fraction] == 0x45) then
        var sign := if fraction + 1 < |body| && (body[fraction + 1] == 0x2B || body[fraction + 1] == 0x2D)
                    then fraction + 2 else fraction + 1;
        if sign < |body| && IsDigit(body[sign]) then Some(DigitsEnd(body, sign)) else Some(fraction)
      else Some(fraction)
  }

  datatype Parsed<T> = Parsed(value: T, end: nat) | Malformed

  function ParseString(body: Body, i: nat): (r: Parsed<seq<Unit>>)
    ensures r.Parsed? ==> i < r.end <= |body|
  {
    match Units(body, i)
    case None => Malformed
    case Some((units, end)) => Parsed(units, end)
  }

  /** One value at i, where no space is skipped any more. */
  function ParseValue(body: Body, i: nat): (r: Parsed<Value<Unit>>)
    requires i <= |body|
    ensures r.Parsed? ==> i < r.end <= |body|
    decreases |body| - i, 1
  {
    if i == |body| then Malformed
    else if body[i] == QUOTE then
      match ParseString(body, i + 1) { case Malformed => Malformed case Parsed(units, end) => Parsed(Str(units), end) }
    else if body[i] == 0x5B then
      var first := Skip(body, i + 1);
      if first < |body| && body[first] == 0x5D then Parsed(Arr([]), first + 1)
      else
        match ParseItems(body, first) { case Malformed => Malformed case Parsed(items, end) => Parsed(Arr(items), end) }
    else if body[i] == 0x7B then
      var first := Skip(body, i + 1);
      if first < |body| && body[first] == 0x7D then Parsed(Obj([]), first + 1)
      else
        match ParseMembers(body, first) { case Malformed => Malformed case Parsed(members, end) => Parsed(Obj(members), end) }
    else if WordEnd(body, i, 0).Some? then Parsed(Scalar, WordEnd(body, i, 0).value)
    else if NumberEnd(body, i).Some? then Parsed(Scalar, NumberEnd(body, i).value)
    else Malformed
  }

  /** The items of an array from i to its closing bracket. */
  function ParseItems(body: Body, i: nat): (r: Parsed<seq<Value<Unit>>>)
    requires i <= |body|
    ensures r.Parsed? ==> i < r.end <= |body|
    decreases |body| - i, 2
  {
    match ParseValue(body, i)
    case Malformed => Malformed
    case Parsed(item, end) =>
      var next := Skip(body, end);
      if next == |body| then Malformed
      else if body[next] == 0x5D then Parsed([item], next + 1)
      else if body[next] != 0x2C then Malformed
      else
        match ParseItems(body, Skip(body, next + 1))
        case Malformed => Malformed
        case Parsed(items, last) => Parsed([item] + items, last)
  }

  /** Of members with one key, as text, the last is kept. */
  function WithMember(member: Member<Unit>, later: seq<Member<Unit>>): seq<Member<Unit>> {
    if exists m | m in later :: Join(m.key) == Join(member.key) then later else [member] + later
  }

  /** One member at i, and where something else stands behind it. */
  function ParseMember(body: Body, i: nat): (r: Parsed<Member<Unit>>)
    requires i <= |body|
    ensures r.Parsed? ==> i < r.end <= |body|
    decreases |body| - i, 2
  {
    if i == |body| || body[i] != QUOTE then Malformed
    else
      match ParseString(body, i + 1)
      case Malformed => Malformed
      case Parsed(key, colon) =>
        var at := Skip(body, colon);
        if at == |body| || body[at] != 0x3A then Malformed
        else
          match ParseValue(body, Skip(body, at + 1))
          case Malformed => Malformed
          case Parsed(value, end) => Parsed(Member(key, value), Skip(body, end))
  }

  /** The members of an object from the first key to its closing brace. */
  function ParseMembers(body: Body, i: nat): (r: Parsed<seq<Member<Unit>>>)
    requires i <= |body|
    ensures r.Parsed? ==> i < r.end <= |body|
    decreases |body| - i, 3
  {
    match ParseMember(body, i)
    case Malformed => Malformed
    case Parsed(member, next) =>
      if next == |body| then Malformed
      else if body[next] == 0x7D then Parsed([member], next + 1)
      else if body[next] != 0x2C then Malformed
      else
        match ParseMembers(body, Skip(body, next + 1))
        case Malformed => Malformed
        case Parsed(members, last) => Parsed(WithMember(member, members), last)
  }

  /** A whole body: one value and nothing but space around it. */
  function Read(body: Body): Option<Value<Unit>> {
    match ParseValue(body, Skip(body, 0))
    case Malformed => None
    case Parsed(raw, end) => if Skip(body, end) == |body| then Some(raw) else None
  }

  function Decode(body: Body): Option<Value<int>> {
    match Read(body) { case None => None case Some(raw) => Some(Joined(raw)) }
  }

  predicate Plain(body: Body) {
    (forall b | b in body :: 0 < b < 128)
  }

  // ---- What stays alone ----

  /** RFC 8259 section 8.2: a surrogate escape without its partner next to it. */
  predicate Unpaired(units: seq<Unit>, i: nat)
    requires i < |units|
  {
    (IsHigh(units[i]) && !(i + 1 < |units| && IsLow(units[i + 1])))
    || (IsLow(units[i]) && !(i > 0 && IsHigh(units[i - 1])))
  }

  predicate AnyUnpaired(units: seq<Unit>) {
    exists i | 0 <= i < |units| :: Unpaired(units, i)
  }

  /** Some key or string of the value, as read, has an unpaired surrogate escape. */
  predicate TokenUnpaired(raw: Value<Unit>)
    decreases raw, 0
  {
    match raw
    case Scalar => false
    case Str(units) => AnyUnpaired(units)
    case Arr(items) => ItemUnpaired(items)
    case Obj(members) => MemberUnpaired(members)
  }

  predicate ItemUnpaired(items: seq<Value<Unit>>)
    decreases items, 1
  {
    items != [] && (TokenUnpaired(items[0]) || ItemUnpaired(items[1..]))
  }

  predicate MemberUnpaired(members: seq<Member<Unit>>)
    decreases members, 1
  {
    members != []
    && (AnyUnpaired(members[0].key) || TokenUnpaired(members[0].value) || MemberUnpaired(members[1..]))
  }

  lemma AfterPair(units: seq<Unit>)
    requires |units| >= 2 && IsHigh(units[0]) && IsLow(units[1])
    ensures AnyUnpaired(units) <==> AnyUnpaired(units[2..])
  {
    forall i | 2 <= i < |units| ensures Unpaired(units, i) <==> Unpaired(units[2..], i - 2) {
      if i == 2 { assert !IsHigh(units[1]); }
    }
    assert !Unpaired(units, 0) && !Unpaired(units, 1);
    if j :| 0 <= j < |units[2..]| && Unpaired(units[2..], j) {
      assert Unpaired(units, j + 2);
    }
    if i :| 0 <= i < |units| && Unpaired(units, i) {
      assert Unpaired(units[2..], i - 2);
    }
  }

  lemma AfterSingle(units: seq<Unit>)
    requires units != [] && !(|units| >= 2 && IsHigh(units[0]) && IsLow(units[1]))
    ensures AnyUnpaired(units) <==> IsSurrogate(units[0]) || AnyUnpaired(units[1..])
  {
    assert Unpaired(units, 0) <==> IsSurrogate(units[0]);
    forall i | 1 <= i < |units| ensures Unpaired(units, i) <==> Unpaired(units[1..], i - 1) {
      if i == 1 { assert !(IsHigh(units[0]) && IsLow(units[1])); }
    }
    if j :| 0 <= j < |units[1..]| && Unpaired(units[1..], j) {
      assert Unpaired(units, j + 1);
    }
    if i :| 0 <= i < |units| && Unpaired(units, i) {
      assert i > 0 ==> Unpaired(units[1..], i - 1);
    }
  }

  /** A decoded text holds a surrogate exactly when some surrogate unit is unpaired. */
  lemma {:induction false} LoneExactlyWhenUnpaired(units: seq<Unit>)
    ensures TextHasSurrogate(Join(units)) <==> AnyUnpaired(units)
  {
    if units != [] {
      if |units| >= 2 && IsHigh(units[0]) && IsLow(units[1]) {
        LoneExactlyWhenUnpaired(units[2..]);
        AfterPair(units);
        var rest := Join(units[2..]);
        assert forall c :: c in Join(units) <==> c == Astral(units[0], units[1]) || c in rest;
      } else {
        LoneExactlyWhenUnpaired(units[1..]);
        AfterSingle(units);
        var rest := Join(units[1..]);
        assert forall c :: c in Join(units) <==> c == units[0] || c in rest;
      }
    }
  }

  lemma {:induction false} ValueLoneExactly(raw: Value<Unit>)
    ensures HasLoneSurrogate(Joined(raw)) <==> TokenUnpaired(raw)
    decreases raw, 0
  {
    hide TextHasSurrogate, AnyUnpaired, Join;
    match raw
    case Scalar =>
    case Str(units) => LoneExactlyWhenUnpaired(units);
    case Arr(items) => ItemsLoneExactly(items);
    case Obj(members) => MembersLoneExactly(members);
  }

  lemma {:induction false} ItemsLoneExactly(items: seq<Value<Unit>>)
    ensures AnyItem(JoinedItems(items)) <==> ItemUnpaired(items)
    decreases items, 1
  {
    hide HasLoneSurrogate, Joined, TokenUnpaired;
    if items != [] {
      ValueLoneExactly(items[0]);
      ItemsLoneExactly(items[1..]);
      assert JoinedItems(items)[1..] == JoinedItems(items[1..]);
    }
  }

  lemma {:induction false} MembersLoneExactly(members: seq<Member<Unit>>)
    ensures AnyMember(JoinedMembers(members)) <==> MemberUnpaired(members)
    decreases members, 1
  {
    hide HasLoneSurrogate, Joined, TokenUnpaired, TextHasSurrogate, AnyUnpaired, Join;
    if members != [] {
      LoneExactlyWhenUnpaired(members[0].key);
      ValueLoneExactly(members[0].value);
      MembersLoneExactly(members[1..]);
      assert JoinedMembers(members)[1..] == JoinedMembers(members[1..]);
    }
  }

  // ---- No escape, no surrogate ----

  /** No position holds the escape text. */
  ghost predicate NoEscape(body: Body) {
    forall i | 0 <= i < |body| :: !EscapeAt(body, i)
  }

  lemma UnitIsPlain(body: Body, i: nat)
    requires NoEscape(body) && i + 1 < |body| && body[i] == BACKSLASH && body[i + 1] == 0x75 && FourHex(body, i + 2)
    ensures !IsSurrogate(UnitAt(body, i + 2))
  {
    assert !EscapeAt(body, i);
  }

  lemma {:induction false} UnitsArePlain(body: Body, i: nat)
    requires Plain(body) && NoEscape(body)
    ensures Units(body, i).Some? ==> forall u | u in Units(body, i).value.0 :: !IsSurrogate(u)
    decreases |body| - i
  {
    if i < |body| && body[i] >= 0x20 && body[i] != QUOTE {
      assert body[i] in body;
      if body[i] != BACKSLASH {
        UnitsArePlain(body, i + 1);
      } else if i + 1 < |body| {
        if body[i + 1] == 0x75 && FourHex(body, i + 2) {
          UnitIsPlain(body, i);
          UnitsArePlain(body, i + 6);
        } else if body[i + 1] != 0x75 && Escaped(body[i + 1]).Some? {
          UnitsArePlain(body, i + 2);
        }
      }
    }
  }

  lemma StringIsPlain(body: Body, i: nat)
    requires Plain(body) && NoEscape(body)
    ensures ParseString(body, i).Parsed? ==> !AnyUnpaired(ParseString(body, i).value)
  {
    UnitsArePlain(body, i);
    if Units(body, i).Some? {
      var units := Units(body, i).value.0;
      forall k | 0 <= k < |units| ensures !Unpaired(units, k) { assert units[k] in units; }
    }
  }

  lemma {:induction false} ValueIsPlain(body: Body, i: nat)
    requires Plain(body) && NoEscape(body) && i <= |body|
    ensures ParseValue(body, i).Parsed? ==> !TokenUnpaired(ParseValue(body, i).value)
    decreases |body| - i, 1
  {
    if i < |body| {
      hide Plain, NoEscape, Units, Join, ParseItems, ParseMembers, AnyUnpaired, WORDS, WordEnd, NumberEnd;
      StringIsPlain(body, i + 1);
      ItemsArePlain(body, Skip(body, i + 1));
      MembersArePlain(body, Skip(body, i + 1));
    }
  }

  lemma {:induction false} ItemsArePlain(body: Body, i: nat)
    requires Plain(body) && NoEscape(body) && i <= |body|
    ensures ParseItems(body, i).Parsed? ==> !ItemUnpaired(ParseItems(body, i).value)
    decreases |body| - i, 2
  {
    hide Plain, NoEscape, ParseValue, TokenUnpaired;
    ValueIsPlain(body, i);
    if ParseValue(body, i).Parsed? {
      var next := Skip(body, ParseValue(body, i).end);
      if next < |body| && body[next] == 0x2C { ItemsArePlain(body, Skip(body, next + 1)); }
    }
  }

  lemma {:induction false} MembersArePlain(body: Body, i: nat)
    requires Plain(body) && NoEscape(body) && i <= |body|
    ensures ParseMembers(body, i).Parsed? ==> !MemberUnpaired(ParseMembers(body, i).value)
    decreases |body| - i, 2
  {
    if ParseMembers(body, i).Malformed? { return; }
    var start, rest := FirstMember(body, i);
    hide *;
    StringIsPlain(body, i + 1);
    ValueIsPlain(body, start);
    var member := Member(ParseString(body, i + 1).value, ParseValue(body, start).value);
    PlainMember(member, []);
    if rest < |body| {
      MembersArePlain(body, rest);
      if ParseMembers(body, rest).Parsed? { PlainMember(member, ParseMembers(body, rest).value); }
    }
  }

  /** Where the value of the first member starts, and the members after it, if there are more. */
  lemma FirstMember(body: Body, i: nat) returns (start: nat, rest: nat)
    requires i <= |body| && ParseMembers(body, i).Parsed?
    ensures i < start <= |body| && start <= rest <= |body| && (rest < |body| ==> i < rest)
    ensures ParseString(body, i + 1).Parsed? && ParseValue(body, start).Parsed?
    ensures var member := Member(ParseString(body, i + 1).value, ParseValue(body, start).value);
            ParseMembers(body, i).value == [member]
            || (rest < |body| && ParseMembers(body, rest).Parsed?
                && ParseMembers(body, i).value == WithMember(member, ParseMembers(body, rest).value))
  {
    hide ParseValue, ParseString, WithMember;
    start := Skip(body, Skip(body, ParseString(body, i + 1).end) + 1);
    var next := Skip(body, ParseValue(body, start).end);
    rest := if next < |body| && body[next] == 0x2C then Skip(body, next + 1) else |body|;
  }

  lemma PlainMember(member: Member<Unit>, later: seq<Member<Unit>>)
    requires !AnyUnpaired(member.key) && !TokenUnpaired(member.value) && !MemberUnpaired(later)
    ensures !MemberUnpaired([member]) && !MemberUnpaired(WithMember(member, later))
  {
    hide AnyUnpaired, TokenUnpaired, Join;
    assert ([member] + later)[1..] == later;
  }

  /** The guard without its fast path: always decode. */
  predicate AlwaysDecode(body: Body, loads: Decoder) {
    match loads(body) { case None => false case Some(value) => HasLoneSurrogate(value) }
  }

  /**
   The fast path never changes the answer, for any decoder that reads ASCII text without
   NUL as JSON or gives up on it, as on an integer of too many digits; what it does with any
   other bytes does not matter.
   */
  lemma FastPathAgrees(body: Body, loads: Decoder)
    requires Plain(body) ==> loads(body).None? || loads(body) == Decode(body)
    ensures BodyHasLoneSurrogate(body, loads) == AlwaysDecode(body, loads)
  {
    if !MayHoldSurrogate(body) {
      assert Plain(body) && NoEscape(body);
      hide ParseValue, HasLoneSurrogate, TokenUnpaired, Joined, Plain, NoEscape;
      ValueIsPlain(body, Skip(body, 0));
      if Read(body).Some? { ValueLoneExactly(Read(body).value); }
    }
  }

  /**
   The guard refuses an ASCII body without NUL if and only if the decoder reads it and one of its
   keys or strings, duplicate keys dropped, has an unpaired surrogate escape.
   */
  lemma GuardRefusesExactly(body: Body, loads: Decoder)
    requires Plain(body) && (loads(body).None? || loads(body) == Decode(body))
    ensures BodyHasLoneSurrogate(body, loads)
       <==> loads(body).Some? && Read(body).Some? && TokenUnpaired(Read(body).value)
  {
    hide Read, HasLoneSurrogate, TokenUnpaired, Joined, MayHoldSurrogate, Plain;
    FastPathAgrees(body, loads);
    if Read(body).Some? { ValueLoneExactly(Read(body).value); }
  }

  /** Section 7: the two escapes of a character beyond the basic plane decode to that character. */
  lemma PairDecodes(c: int)
    requires 0x10000 <= c <= 0x10FFFF
    ensures var high: Unit, low: Unit := 0xD800 + (c - 0x10000) / 0x400, 0xDC00 + (c - 0x10000) % 0x400;
            IsHigh(high) && IsLow(low) && Join([high, low]) == [c] && !AnyUnpaired([high, low])
  {
    var high: Unit, low: Unit := 0xD800 + (c - 0x10000) / 0x400, 0xDC00 + (c - 0x10000) % 0x400;
    var units := [high, low];
    assert units[2..] == [] && Join(units[2..]) == [];
    assert !Unpaired(units, 0) && !Unpaired(units, 1);
  }
}
