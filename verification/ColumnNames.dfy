/**
 Data table columns for Airtable fields, `column_names` of `scripts/airtable_mirror.py`.

 A field's slug, led by a letter and cut once to leave room for a suffix, is its first candidate
 name; while the name is taken, or is a system column, the next candidate is that base with the
 next number behind it. The first part shows that candidates differ and are legal, the second that
 the suffix loop always ends at the first free one, by counting candidates against names. The last
 part has appended fields, and says that n fields always fit the limit exactly for n up to 999.
 */
module ColumnNames {
  import opened Strings

  const SYSTEM_COLUMNS: set<string> := {"airtable_record_id", "airtable_created_time"}
  const NUMBER_TYPES: set<string> := {"number", "rating", "count", "autoNumber", "percent", "currency", "duration"}
  const MAX_COLUMN := 63

  datatype Field = Field(id: string, name: string, kind: string)

  datatype Column = Column(id: string, name: string, kind: string)

  function Slug(text: string): string {
    if Snake(text) == "" then "field" else Snake(text)
  }

  function ColumnType(kind: string): string {
    if kind in NUMBER_TYPES then "number" else if kind == "checkbox" then "boolean" else "string"
  }

  predicate IsLetter(c: char) {
    IsAlnum(c) && !IsDigit(c)
  }

  /** The slug, led by a letter, cut so that a suffix still fits. */
  function BaseOf(field: Field): string {
    var slug := Slug(field.name);
    var led := if slug != "" && IsLetter(slug[0]) then slug else "f_" + slug;
    if |led| > MAX_COLUMN - 4 then led[..MAX_COLUMN - 4] else led
  }

  /** ^[a-zA-Z][a-zA-Z0-9_]*$ */
  predicate Legal(name: string) {
    name != "" && IsLetter(name[0]) && forall c | c in name :: IsAlnum(c) || c == '_'
  }

  lemma BaseIsLegal(field: Field)
    ensures Legal(BaseOf(field)) && |BaseOf(field)| <= MAX_COLUMN - 4
  {
    SnakeChars(field.name);
    var slug := Slug(field.name);
    assert "field"[0] == 'f';
    assert forall c | c in slug :: IsAlnum(c) || c == '_';
    var led := if slug != "" && IsLetter(slug[0]) then slug else "f_" + slug;
    assert led[0] == 'f' || led[0] == slug[0];
    assert forall c | c in led :: IsAlnum(c) || c == '_';
    assert forall c | c in BaseOf(field) :: c in led;
  }

  /** The base and the type of a field, spelled out. */
  lemma FieldMeans(field: Field)
    ensures var snake := Snake(field.name);
            var whole := if snake == "" then "field" else if snake[0] in "0123456789" then "f_" + snake else snake;
            BaseOf(field) == if |whole| <= 59 then whole else whole[..59]
    ensures ColumnType(field.kind) ==
      if field.kind in ["number", "rating", "count", "autoNumber", "percent", "currency", "duration"] then "number"
      else if field.kind == "checkbox" then "boolean"
      else "string"
  {
    SnakeChars(field.name);
    var snake := Snake(field.name);
    if snake != "" {
      Classes(snake[0]);
      assert snake[0] != '_';
    }
    assert "field"[0] == 'f';
  }

  // ---- The names tried for one base ----

  /** The base itself, then base_2, base_3, and on. */
  function Candidate(base: string, k: nat): string {
    if k <= 1 then base else base + "_" + Digits(k)
  }

  lemma CandidatesDiffer(base: string, j: nat, k: nat)
    requires 1 <= j < k
    ensures Candidate(base, j) != Candidate(base, k)
  {
    if j == 1 {
      assert |Candidate(base, k)| > |base|;
    } else {
      DigitsRead(j);
      DigitsRead(k);
      assert Candidate(base, j)[|base| + 1..] == Digits(j) && Candidate(base, k)[|base| + 1..] == Digits(k);
    }
  }

  ghost function Tried(base: string, k: nat): set<string> {
    set j | 1 <= j <= k :: Candidate(base, j)
  }

  lemma {:induction false} TriedAreMany(base: string, k: nat)
    ensures |Tried(base, k)| == k
  {
    if k == 0 {
      assert Tried(base, 0) == {};
    } else {
      TriedAreMany(base, k - 1);
      assert Tried(base, k) == Tried(base, k - 1) + {Candidate(base, k)};
      forall j | 1 <= j < k ensures Candidate(base, j) != Candidate(base, k) { CandidatesDiffer(base, j, k); }
    }
  }

  lemma {:induction false} SubsetIsSmaller<T>(a: set<T>, b: set<T>)
    requires a <= b
    ensures |a| <= |b|
    decreases |a|
  {
    if x :| x in a { SubsetIsSmaller(a - {x}, b - {x}); }
  }

  /** If the first k candidates are all taken, at least k names are taken. */
  lemma Pigeonhole(base: string, k: nat, taken: set<string>)
    requires forall j | 1 <= j <= k :: Candidate(base, j) in taken
    ensures k <= |taken|
  {
    TriedAreMany(base, k);
    SubsetIsSmaller(Tried(base, k), taken);
  }

  /** No system column is long enough to be a candidate of a base that was cut. */
  lemma LongBaseIsOwn(base: string, k: nat)
    requires |base| == MAX_COLUMN - 4
    ensures Candidate(base, k) !in SYSTEM_COLUMNS
  {
    assert |"airtable_record_id"| == 18 && |"airtable_created_time"| == 21;
  }

  lemma LongPigeonhole(base: string, k: nat, taken: set<string>)
    requires |base| == MAX_COLUMN - 4
    requires forall j | 1 <= j <= k :: Candidate(base, j) in taken
    ensures k <= |taken - SYSTEM_COLUMNS|
  {
    forall j | 1 <= j <= k ensures Candidate(base, j) in taken - SYSTEM_COLUMNS { LongBaseIsOwn(base, j); }
    Pigeonhole(base, k, taken - SYSTEM_COLUMNS);
  }

  lemma CandidateIsLegal(base: string, k: nat)
    requires Legal(base)
    ensures Legal(Candidate(base, k))
    ensures |base| <= MAX_COLUMN - 4 && k <= 999 ==> |Candidate(base, k)| <= MAX_COLUMN
    ensures |base| < MAX_COLUMN - 4 && k <= 9999 ==> |Candidate(base, k)| <= MAX_COLUMN
  {
    DigitsRead(k);
    if k <= 999 { ThreeDigits(k); } else if k <= 9999 { ThreeDigits(k / 10); }
    assert forall c | c in Digits(k) :: IsAlnum(c);
    assert Candidate(base, k)[0] == base[0];
  }

  // ---- What the columns are ----

  function NamesOf(columns: seq<Column>): set<string> {
    set c | c in columns :: c.name
  }

  /** The name is the first candidate that no system column and no earlier field has. */
  ghost predicate FirstFree(name: string, base: string, taken: set<string>) {
    name !in taken && exists k: nat :: k >= 1 && name == Candidate(base, k)
                                  && forall j | 1 <= j < k :: Candidate(base, j) in taken
  }

  ghost predicate FollowsAt(columns: seq<Column>, field: Field, i: nat)
    requires i < |columns|
  {
    columns[i].id == field.id && columns[i].kind == ColumnType(field.kind)
    && FirstFree(columns[i].name, BaseOf(field), SYSTEM_COLUMNS + NamesOf(columns[..i]))
  }

  ghost predicate Follows(columns: seq<Column>, fields: seq<Field>) {
    |columns| == |fields| && forall i | 0 <= i < |fields| :: FollowsAt(columns, fields[i], i)
  }

  ghost predicate AllDistinct(columns: seq<Column>) {
    forall i, j | 0 <= i < j < |columns| :: columns[i].name != columns[j].name
  }

  lemma FollowsStep(columns: seq<Column>, column: Column, fields: seq<Field>, field: Field)
    requires Follows(columns, fields)
    requires column.id == field.id && column.kind == ColumnType(field.kind)
    requires FirstFree(column.name, BaseOf(field), SYSTEM_COLUMNS + NamesOf(columns))
    ensures Follows(columns + [column], fields + [field])
  {
    hide FirstFree, BaseOf, ColumnType, NamesOf;
    var all := columns + [column];
    assert all[..|columns|] == columns;
    forall i | 0 <= i < |columns| ensures FollowsAt(all, (fields + [field])[i], i) {
      assert FollowsAt(columns, fields[i], i);
      assert all[..i] == columns[..i];
    }
  }

  lemma NamesStep(columns: seq<Column>, column: Column)
    ensures NamesOf(columns + [column]) == NamesOf(columns) + {column.name}
    ensures AllDistinct(columns) && column.name !in NamesOf(columns) ==> AllDistinct(columns + [column])
  {
    assert forall c :: c in columns + [column] <==> c in columns || c == column;
    assert forall i | 0 <= i < |columns| :: columns[i] in columns;
  }

  /** With few enough names taken, the first free candidate fits the limit. */
  lemma FirstFreeFits(name: string, base: string, taken: set<string>)
    requires FirstFree(name, base, taken) && Legal(base) && |base| <= MAX_COLUMN - 4
    requires |taken| <= 1000 && |taken - SYSTEM_COLUMNS| <= 998
    ensures |name| <= MAX_COLUMN
  {
    var k: nat :| k >= 1 && name == Candidate(base, k) && forall j | 1 <= j < k :: Candidate(base, j) in taken;
    hide Legal;
    Pigeonhole(base, k - 1, taken);
    if |base| == MAX_COLUMN - 4 { LongPigeonhole(base, k - 1, taken); }
    CandidateIsLegal(base, k);
  }

  /** The inner loop: count up until a candidate is free. */
  method FreeName(base: string, taken: set<string>) returns (name: string)
    requires Legal(base) && |base| <= MAX_COLUMN - 4
    ensures FirstFree(name, base, taken) && Legal(name)
    ensures |taken| <= 1000 && |taken - SYSTEM_COLUMNS| <= 998 ==> |name| <= MAX_COLUMN
  {
    name := base;
    var n := 2;
    while name in taken
      invariant n >= 2 && name == Candidate(base, n - 1)
      invariant forall j | 1 <= j < n - 1 :: Candidate(base, j) in taken
      decreases |taken| + 1 - n
    {
      Pigeonhole(base, n - 1, taken);
      name := base + "_" + Digits(n);
      n := n + 1;
      if name in taken { Pigeonhole(base, n - 1, taken); }
    }
    CandidateIsLegal(base, n - 1);
    if |taken| <= 1000 && |taken - SYSTEM_COLUMNS| <= 998 { FirstFreeFits(name, base, taken); }
  }

  /**
   Terminates on any fields; the names follow from the fields in order, are pairwise
   distinct, differ from the system columns, and are legal. Up to 999 fields every name
   fits the limit.
   */
  method ColumnNames(fields: seq<Field>) returns (columns: seq<Column>)
    ensures Follows(columns, fields)
    ensures AllDistinct(columns)
    ensures forall c | c in columns :: c.name !in SYSTEM_COLUMNS && Legal(c.name)
    ensures |fields| <= 999 ==> forall c | c in columns :: |c.name| <= MAX_COLUMN
  {
    hide BaseOf, Legal, FirstFree, ColumnType, Follows, AllDistinct, NamesOf;
    NothingYet();
    columns := [];
    var taken := SYSTEM_COLUMNS;
    for i := 0 to |fields|
      invariant |columns| == i && taken == SYSTEM_COLUMNS + NamesOf(columns) && |taken| <= 2 + i
      invariant |taken - SYSTEM_COLUMNS| <= i
      invariant Follows(columns, fields[..i]) && AllDistinct(columns)
      invariant forall c | c in columns :: c.name !in SYSTEM_COLUMNS && Legal(c.name)
      invariant i <= 999 ==> forall c | c in columns :: |c.name| <= MAX_COLUMN
    {
      BaseIsLegal(fields[i]);
      var name := FreeName(BaseOf(fields[i]), taken);
      FreeIsNew(name, BaseOf(fields[i]), taken);
      var column := Column(fields[i].id, name, ColumnType(fields[i].kind));
      FollowsStep(columns, column, fields[..i], fields[i]);
      NamesStep(columns, column);
      assert fields[..i + 1] == fields[..i] + [fields[i]];
      assert taken + {name} - SYSTEM_COLUMNS == (taken - SYSTEM_COLUMNS) + {name};
      columns, taken := columns + [column], taken + {name};
    }
    assert fields[..|fields|] == fields;
  }

  lemma NothingYet()
    ensures NamesOf([]) == {} && Follows([], []) && AllDistinct([]) && |SYSTEM_COLUMNS| == 2
  {
    assert "airtable_record_id"[9] != "airtable_created_time"[9];
    assert |SYSTEM_COLUMNS - {"airtable_record_id"}| == |{"airtable_created_time"}| == 1 by {
      assert SYSTEM_COLUMNS - {"airtable_record_id"} == {"airtable_created_time"};
    }
  }

  lemma FreeIsNew(name: string, base: string, taken: set<string>)
    requires FirstFree(name, base, taken)
    ensures name !in taken
  {
  }

  // ---- Appending fields ----

  lemma FirstFreeIsUnique(a: string, b: string, base: string, taken: set<string>)
    requires FirstFree(a, base, taken) && FirstFree(b, base, taken)
    ensures a == b
  {
    var j: nat :| j >= 1 && a == Candidate(base, j) && forall i | 1 <= i < j :: Candidate(base, i) in taken;
    var k: nat :| k >= 1 && b == Candidate(base, k) && forall i | 1 <= i < k :: Candidate(base, i) in taken;
    assert j < k ==> Candidate(base, j) in taken;
    assert k < j ==> Candidate(base, k) in taken;
  }

  lemma FollowsAlike(fields: seq<Field>, a: seq<Column>, b: seq<Column>, n: nat)
    requires n < |a| && n < |b| && a[..n] == b[..n] && n < |fields|
    requires FollowsAt(a, fields[n], n) && FollowsAt(b, fields[n], n)
    ensures a[..n + 1] == b[..n + 1]
  {
    FirstFreeIsUnique(a[n].name, b[n].name, BaseOf(fields[n]), SYSTEM_COLUMNS + NamesOf(a[..n]));
    assert a[n] == b[n];
    assert a[..n + 1] == a[..n] + [a[n]] && b[..n + 1] == b[..n] + [b[n]];
  }

  /** Appending fields renames no earlier column: the columns of a prefix are a prefix of the columns. */
  lemma {:induction false} AppendingRenamesNothing(fields: seq<Field>, more: seq<Field>, before: seq<Column>,
                                                  after: seq<Column>, n: nat)
    requires Follows(before, fields) && Follows(after, fields + more) && n <= |fields|
    ensures after[..n] == before[..n]
    ensures n == |fields| ==> after[..n] == before
  {
    hide FollowsAt;
    if n > 0 {
      AppendingRenamesNothing(fields, more, before, after, n - 1);
      assert (fields + more)[n - 1] == fields[n - 1];
      FollowsAlike(fields, after, before, n - 1);
    }
  }

  // ---- The limit is sharp ----

  lemma CandidatesTaken(base: string, taken: set<string>, n: nat, name: string)
    requires |base| == MAX_COLUMN - 4 && taken == SYSTEM_COLUMNS + Tried(base, n)
    requires FirstFree(name, base, taken)
    ensures name == Candidate(base, n + 1)
  {
    LongBaseIsOwn(base, n + 1);
    forall j | 1 <= j <= n ensures Candidate(base, j) in taken && Candidate(base, j) != Candidate(base, n + 1) {
      assert Candidate(base, j) in Tried(base, n);
      CandidatesDiffer(base, j, n + 1);
    }
    assert Candidate(base, n + 1) !in taken;
    assert FirstFree(Candidate(base, n + 1), base, taken);
    FirstFreeIsUnique(name, Candidate(base, n + 1), base, taken);
  }

  /** Fields of one long name are numbered through. */
  lemma {:induction false} NumberedThrough(columns: seq<Column>, field: Field, n: nat)
    requires Follows(columns, seq(n, _ => field)) && |BaseOf(field)| == MAX_COLUMN - 4
    ensures NamesOf(columns) == Tried(BaseOf(field), n)
    ensures n > 0 ==> columns[n - 1].name == Candidate(BaseOf(field), n)
    decreases n
  {
    hide BaseOf, FirstFree, Candidate;
    if n == 0 {
      assert columns == [];
    } else {
      var front, last := columns[..n - 1], columns[n - 1];
      assert columns == front + [last];
      forall i | 0 <= i < n - 1 ensures FollowsAt(front, field, i) {
        assert FollowsAt(columns, seq(n, _ => field)[i], i);
        assert front[..i] == columns[..i];
      }
      NumberedThrough(front, field, n - 1);
      assert FollowsAt(columns, seq(n, _ => field)[n - 1], n - 1);
      CandidatesTaken(BaseOf(field), SYSTEM_COLUMNS + NamesOf(front), n - 1, last.name);
      NamesStep(front, last);
      assert Tried(BaseOf(field), n) == Tried(BaseOf(field), n - 1) + {Candidate(BaseOf(field), n)};
    }
  }

  /** The thousandth field of one long name gets a column of 64 characters. */
  lemma ThousandthIsTooLong(columns: seq<Column>, field: Field)
    requires Follows(columns, seq(1000, _ => field)) && |BaseOf(field)| == MAX_COLUMN - 4
    ensures |columns[999].name| == MAX_COLUMN + 1
  {
    NumberedThrough(columns, field, 1000);
    hide BaseOf, Follows;
    assert |Digits(1)| == 1 && |Digits(10)| == 2 && |Digits(100)| == 3 && |Digits(1000)| == 4;
  }

  lemma {:induction false} NamesAreFew(columns: seq<Column>)
    ensures |NamesOf(columns)| <= |columns|
  {
    if columns != [] {
      var front, last := columns[..|columns| - 1], columns[|columns| - 1];
      NamesAreFew(front);
      NamesStep(front, last);
      assert columns == front + [last];
    }
  }

  lemma FewColumnsFit(fields: seq<Field>, columns: seq<Column>, i: nat)
    requires Follows(columns, fields) && i < |fields| <= 999
    ensures |columns[i].name| <= MAX_COLUMN
  {
    var taken := SYSTEM_COLUMNS + NamesOf(columns[..i]);
    assert FollowsAt(columns, fields[i], i);
    hide FirstFree, BaseOf, Legal, Follows, NamesOf;
    BaseIsLegal(fields[i]);
    NamesAreFew(columns[..i]);
    NothingYet();
    SubsetIsSmaller(taken - SYSTEM_COLUMNS, NamesOf(columns[..i]));
    FirstFreeFits(columns[i].name, BaseOf(fields[i]), taken);
  }

  lemma {:induction false} PlainCollapses(text: string)
    requires forall c | c in text :: c == 'a'
    ensures Collapse(text, false) == text
  {
    if text != "" {
      assert text[0] in text && forall c | c in text[1..] :: c in text;
      PlainCollapses(text[1..]);
    }
  }

  /** A field whose base fills the room before the suffix. */
  function LongField(): Field {
    Field("", seq(MAX_COLUMN - 4, _ => 'a'), "")
  }

  lemma LongFieldIsLong()
    ensures |BaseOf(LongField())| == MAX_COLUMN - 4
  {
    var name := LongField().name;
    assert name[0] == 'a' && name[|name| - 1] == 'a';
    PlainCollapses(name);
  }

  /** The columns of n fields of that name: its first n candidates. */
  function LongColumns(n: nat): seq<Column> {
    seq(n, i requires 0 <= i < n => Column(LongField().id, Candidate(BaseOf(LongField()), i + 1), ColumnType(LongField().kind)))
  }

  lemma LongColumnsFollow(n: nat)
    ensures Follows(LongColumns(n), seq(n, _ => LongField()))
  {
    var columns, base := LongColumns(n), BaseOf(LongField());
    LongFieldIsLong();
    hide BaseOf, LongField, Candidate, FirstFree;
    forall i | 0 <= i < n ensures FollowsAt(columns, LongField(), i) {
      assert forall j | 0 <= j < i :: columns[..i][j].name == Candidate(base, j + 1);
      NextIsFree(base, columns[..i]);
    }
  }

  /** After the first candidates of a base that was cut, the next one is free. */
  lemma NextIsFree(base: string, columns: seq<Column>)
    requires |base| == MAX_COLUMN - 4
    requires forall j | 0 <= j < |columns| :: columns[j].name == Candidate(base, j + 1)
    ensures FirstFree(Candidate(base, |columns| + 1), base, SYSTEM_COLUMNS + NamesOf(columns))
  {
    hide Candidate;
    var next := |columns| + 1;
    forall j | 1 <= j < next ensures Candidate(base, j) in NamesOf(columns) { assert columns[j - 1] in columns; }
    LongBaseIsOwn(base, next);
    forall c | c in columns ensures c.name != Candidate(base, next) {
      var j :| 0 <= j < |columns| && columns[j] == c;
      CandidatesDiffer(base, j + 1, next);
    }
  }

  lemma ThousandthCandidate(base: string)
    requires |base| == MAX_COLUMN - 4
    ensures |Candidate(base, 1000)| == MAX_COLUMN + 1
  {
    assert |Digits(1)| == 1 && |Digits(10)| == 2 && |Digits(100)| == 3 && |Digits(1000)| == 4;
  }

  /** n fields, whatever they are, fit the limit: */
  ghost predicate AlwaysFits(n: nat) {
    forall fields, columns: seq<Column>, i: nat | |fields| == n && Follows(columns, fields) && i < n :: |columns[i].name| <= MAX_COLUMN
  }

  /** The limit is exact: n fields always get names that fit if and only if n is at most 999. */
  lemma FitsExactly(n: nat)
    ensures AlwaysFits(n) <==> n <= 999
  {
    if n <= 999 {
      forall fields, columns: seq<Column>, i: nat | |fields| == n && Follows(columns, fields) && i < n
        ensures |columns[i].name| <= MAX_COLUMN {
        FewColumnsFit(fields, columns, i);
      }
    } else {
      LongFieldIsLong();
      LongColumnsFollow(n);
      ThousandthCandidate(BaseOf(LongField()));
      assert LongColumns(n)[999].name == Candidate(BaseOf(LongField()), 1000);
      assert |seq(n, _ => LongField())| == n;
    }
  }
}
