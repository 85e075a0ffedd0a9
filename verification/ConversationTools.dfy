/**
 The budgeted observations of `app/services/conversation_tools.py`: soul recall, which
 shrinks a view until its encoding fits, and the pages of the workflow inventory.

 The length of an encoding is a parameter: nothing is assumed about escaping.
 */
module ConversationTools {
  import opened Prelude

  // ---- Soul recall ----

  datatype Record = Record(source: string, id: string, text: string)

  datatype View = View(
    withheld: int,
    records: seq<(string, string)>,
    errors: seq<string>,
    omittedRecords: int,
    omittedErrors: int,
    truncatedErrors: int,
    truncatedTexts: int,
    excerpts: seq<string>)

  const ERROR_CHARS := 80
  const EXCERPT_CHARS := 100
  const RESERVE := 80
  const MAX_RECORDS := 3
  const MAX_ERRORS := 2

  function Least(a: int, b: int): (least: int)
    ensures least <= a && least <= b && (least == a || least == b)
  {
    if a < b then a else b
  }

  function Cut(text: string, n: nat): (cut: string)
    ensures cut <= text && |cut| <= n && (|text| <= n ==> cut == text) && (|text| > n ==> |cut| == n)
  {
    if |text| > n then text[..n] else text
  }

  /** A count below ten takes one digit whatever it is. */
  ghost predicate OneDigitCounts(length: View -> nat) {
    forall v: View, j, k | 0 <= j <= 9 && 0 <= k <= 9 ::
      length(v.(truncatedTexts := j)) == length(v.(truncatedTexts := k))
  }

  function Total(texts: seq<string>): nat {
    if texts == [] then 0 else |texts[0]| + Total(texts[1..])
  }

  /** max(range(n), key=len): the first of the longest. */
  function Longest(texts: seq<string>): (i: nat)
    requires texts != []
    ensures i < |texts| && forall j | 0 <= j < |texts| :: |texts[j]| <= |texts[i]|
    ensures forall j | 0 <= j < i :: |texts[j]| < |texts[i]|
  {
    if |texts| == 1 then 0
    else
      var rest := 1 + Longest(texts[1..]);
      assert forall j | 1 <= j < |texts| :: texts[j] == texts[1..][j - 1];
      if |texts[0]| >= |texts[rest]| then 0 else rest
  }

  lemma {:induction false} TotalAfterCut(texts: seq<string>, i: nat)
    requires i < |texts| && texts[i] != ""
    ensures Total(texts[i := texts[i][..|texts[i]| - 1]]) == Total(texts) - 1
  {
    if i > 0 {
      assert texts[i := texts[i][..|texts[i]| - 1]][1..] == texts[1..][i - 1 := texts[i][..|texts[i]| - 1]];
      TotalAfterCut(texts[1..], i - 1);
    } else {
      assert texts[0 := texts[0][..|texts[0]| - 1]][1..] == texts[1..];
    }
  }

  lemma {:induction false} TotalEmpty(texts: seq<string>)
    requires forall t | t in texts :: t == ""
    ensures Total(texts) == 0
  {
    if texts != [] {
      assert texts[0] in texts && forall t | t in texts[1..] :: t in texts;
      TotalEmpty(texts[1..]);
    }
  }

  lemma {:induction false} TotalPop(texts: seq<string>)
    requires texts != []
    ensures Total(texts[..|texts| - 1]) <= Total(texts)
  {
    if |texts| > 1 {
      assert texts[..|texts| - 1][1..] == texts[1..][..|texts| - 2];
      TotalPop(texts[1..]);
    }
  }

  /** How many of the shown texts are shorter than their originals, over zip(shown, originals). */
  function Shortened(shown: seq<string>, originals: seq<string>): nat {
    if shown == [] || originals == [] then 0
    else (if |shown[0]| < |originals[0]| then 1 else 0) + Shortened(shown[1..], originals[1..])
  }

  lemma {:induction false} ShortenedAtMost(shown: seq<string>, originals: seq<string>)
    ensures Shortened(shown, originals) <= |shown|
  {
    if shown != [] && originals != [] { ShortenedAtMost(shown[1..], originals[1..]); }
  }

  lemma {:induction false} ShortenedSnoc(shown: seq<string>, originals: seq<string>, n: nat)
    requires n < |shown| <= |originals|
    ensures Shortened(shown[..n + 1], originals)
         == Shortened(shown[..n], originals) + (if |shown[n]| < |originals[n]| then 1 else 0)
  {
    if n > 0 {
      assert shown[..n + 1][1..] == shown[1..][..n] && shown[..n][1..] == shown[1..][..n - 1];
      ShortenedSnoc(shown[1..], originals[1..], n - 1);
    }
  }

  function ShorterAt(shown: seq<string>, originals: seq<string>, n: nat): set<nat>
    requires n <= |shown| <= |originals|
  {
    set i: nat | i < n && |shown[i]| < |originals[i]| :: i
  }

  /** The count, spelled out. */
  lemma {:induction false} ShortenedIsTheCount(shown: seq<string>, originals: seq<string>, n: nat)
    requires n <= |shown| <= |originals|
    ensures Shortened(shown[..n], originals) == |ShorterAt(shown, originals, n)|
  {
    if n > 0 {
      ShortenedIsTheCount(shown, originals, n - 1);
      ShortenedSnoc(shown, originals, n - 1);
      var before := ShorterAt(shown, originals, n - 1);
      assert ShorterAt(shown, originals, n) == before + (if |shown[n - 1]| < |originals[n - 1]| then {n - 1} else {});
    }
  }

  // ---- Cutting down step by step ----

  /** The first of the longest texts loses its last character; when none has one left, the last text goes. */
  ghost predicate OneDrop(before: seq<string>, after: seq<string>) {
    && before != []
    && if forall t | t in before :: t == "" then after == before[..|before| - 1]
       else exists i | 0 <= i < |before| ::
         && (forall j | 0 <= j < |before| :: |before[j]| <= |before[i]|)
         && (forall j | 0 <= j < i :: |before[j]| < |before[i]|)
         && before[i] != "" && after == before[i := before[i][..|before[i]| - 1]]
  }

  ghost predicate Drops(stages: seq<seq<string>>) {
    stages != [] && forall i | 0 <= i < |stages| - 1 :: OneDrop(stages[i], stages[i + 1])
  }

  /** A row of drops from the first texts to the shown ones. */
  ghost predicate Leads(stages: seq<seq<string>>, first: seq<string>, shown: seq<string>) {
    Drops(stages) && stages[0] == first && stages[|stages| - 1] == shown
  }

  ghost predicate ArePrefixes(shown: seq<string>, originals: seq<string>, n: nat) {
    |shown| <= |originals| && forall i | 0 <= i < |shown| :: shown[i] <= originals[i] && |shown[i]| <= n
  }

  /** One round of a cutting loop, with a character to cut. */
  lemma CutLongest(shown: seq<string>, originals: seq<string>, n: nat)
    requires shown != [] && ArePrefixes(shown, originals, n) && shown[Longest(shown)] != ""
    ensures var i := Longest(shown);
            var next := shown[i := shown[i][..|shown[i]| - 1]];
            OneDrop(shown, next) && Total(next) == Total(shown) - 1 && ArePrefixes(next, originals, n)
  {
    assert shown[Longest(shown)] in shown;
    TotalAfterCut(shown, Longest(shown));
  }

  /** One round with none: the last text goes. */
  lemma PopLast(shown: seq<string>, originals: seq<string>, n: nat)
    requires shown != [] && ArePrefixes(shown, originals, n) && shown[Longest(shown)] == ""
    ensures var next := shown[..|shown| - 1];
            OneDrop(shown, next) && Total(next) <= Total(shown) && ArePrefixes(next, originals, n)
  {
    forall t | t in shown ensures t == "" {}
    TotalPop(shown);
  }

  /** The texts cut to so many characters. */
  ghost function Starts(texts: seq<string>, chars: nat): seq<string> {
    seq(|texts|, i requires 0 <= i < |texts| => if |texts[i]| > chars then texts[i][..chars] else texts[i])
  }

  function TextsOf(records: seq<Record>): (texts: seq<string>)
    ensures |texts| == |records| && forall i | 0 <= i < |records| :: texts[i] == records[i].text
  {
    seq(|records|, i requires 0 <= i < |records| => records[i].text)
  }

  function CitationsOf(records: seq<Record>): (cited: seq<(string, string)>)
    ensures |cited| == |records| && forall i | 0 <= i < |records| :: cited[i].0 == records[i].source && cited[i].1 == records[i].id
  {
    seq(|records|, i requires 0 <= i < |records| => (records[i].source, records[i].id))
  }

  /** Errors: a prefix of the list, each a prefix of its text, and the counts say what is missing. */
  ghost predicate ErrorsTold(view: View, errors: seq<string>) {
    && ArePrefixes(view.errors, errors, ERROR_CHARS) && |view.errors| <= MAX_ERRORS
    && view.omittedErrors == |errors| - |view.errors|
    && view.truncatedErrors == Shortened(view.errors, errors)
  }

  /** Records: a prefix of the list with its citations whole, each excerpt a prefix of its text. */
  ghost predicate RecordsTold(view: View, records: seq<Record>) {
    var k := |view.records|;
    && k <= |records| && k <= MAX_RECORDS && view.records == CitationsOf(records[..k])
    && view.omittedRecords == |records| - k
    && |view.excerpts| == k && ArePrefixes(view.excerpts, TextsOf(records[..k]), EXCERPT_CHARS)
    && view.truncatedTexts == Shortened(view.excerpts, TextsOf(records[..k]))
  }

  function EmptyView(records: seq<Record>, errors: seq<string>, withheld: int): View {
    View(withheld, [], [], |records|, |errors|, 0, 0, [])
  }

  /** The view of these errors, before any record is cited. */
  function ErrorsView(records: seq<Record>, errors: seq<string>, withheld: int, shown: seq<string>): View {
    View(withheld, [], shown, |records|, |errors| - |shown|, Shortened(shown, errors), 0, [])
  }

  /** The shown errors come from the first ones drop by drop, and no view on the way fitted. */
  ghost predicate ErrorsCutTo(records: seq<Record>, errors: seq<string>, withheld: int, limit: int, length: View -> nat,
                              first: seq<string>, shown: seq<string>)
  {
    exists stages | Leads(stages, first, shown) ::
      forall i | 0 <= i < |stages| - 1 :: length(ErrorsView(records, errors, withheld, stages[i])) > limit
  }

  lemma ErrorsUncut(records: seq<Record>, errors: seq<string>, withheld: int, limit: int, length: View -> nat, first: seq<string>)
    ensures ErrorsCutTo(records, errors, withheld, limit, length, first, first)
  {
    assert Leads([first], first, first);
  }

  lemma ErrorsCutOnce(records: seq<Record>, errors: seq<string>, withheld: int, limit: int, length: View -> nat,
                      first: seq<string>, shown: seq<string>, next: seq<string>)
    requires ErrorsCutTo(records, errors, withheld, limit, length, first, shown) && OneDrop(shown, next)
    requires length(ErrorsView(records, errors, withheld, shown)) > limit
    ensures ErrorsCutTo(records, errors, withheld, limit, length, first, next)
  {
    hide OneDrop, ErrorsView;
    var stages :| Leads(stages, first, shown)
      && forall i | 0 <= i < |stages| - 1 :: length(ErrorsView(records, errors, withheld, stages[i])) > limit;
    assert Leads(stages + [next], first, next);
  }

  /** The first loop: drop characters of the longest error, then whole errors, until the view fits. */
  method FitErrors(start: View, records: seq<Record>, errors: seq<string>, withheld: int, limit: int,
                   length: View -> nat)
    returns (view: View)
    requires ArePrefixes(start.errors, errors, 80)
    requires start == ErrorsView(records, errors, withheld, start.errors)
    ensures ArePrefixes(view.errors, errors, 80) && |view.errors| <= |start.errors|
    ensures view == ErrorsView(records, errors, withheld, view.errors)
    ensures length(view) <= limit || view.errors == []
    ensures ErrorsCutTo(records, errors, withheld, limit, length, start.errors, view.errors)
  {
    ErrorsUncut(records, errors, withheld, limit, length, start.errors);
    hide OneDrop, Shortened, Total, ArePrefixes, ErrorsCutTo;
    view := start;
    while length(view) > limit && view.errors != []
      invariant ArePrefixes(view.errors, errors, ERROR_CHARS) && |view.errors| <= |start.errors|
      invariant view == ErrorsView(records, errors, withheld, view.errors)
      invariant ErrorsCutTo(records, errors, withheld, limit, length, start.errors, view.errors)
      decreases Total(view.errors) + |view.errors|
    {
      var shown := view.errors;
      ghost var before := shown;
      var i := Longest(shown);
      if shown[i] != "" {
        CutLongest(shown, errors, ERROR_CHARS);
        shown := shown[i := shown[i][..|shown[i]| - 1]];
        view := view.(errors := shown, truncatedErrors := Shortened(shown, errors));
      } else {
        PopLast(shown, errors, ERROR_CHARS);
        shown := shown[..|shown| - 1];
        view := view.(errors := shown, omittedErrors := view.omittedErrors + 1,
                      truncatedErrors := Shortened(shown, errors));
      }
      ErrorsCutOnce(records, errors, withheld, limit, length, start.errors, before, shown);
    }
  }

  /** The view of k cited records with empty excerpts. */
  function Cited(base: View, records: seq<Record>, k: nat): (view: View)
    requires k <= |records|
    ensures view.withheld == base.withheld && view.errors == base.errors
    ensures view.omittedErrors == base.omittedErrors && view.truncatedErrors == base.truncatedErrors
    ensures view.records == CitationsOf(records[..k]) && view.omittedRecords + k == |records|
    ensures view.truncatedTexts == |view.excerpts| == k && forall e | e in view.excerpts :: e == ""
  {
    base.(records := CitationsOf(records[..k]), excerpts := seq(k, _ => ""), omittedRecords := |records| - k,
          truncatedTexts := k)
  }

  /** The second loop: cite records while the view leaves the reserve free. */
  method CiteRecords(base: View, records: seq<Record>, limit: int, length: View -> nat) returns (k: nat)
    ensures k <= |records| && k <= 3
    ensures forall j | 0 < j <= k :: length(Cited(base, records, j)) <= limit - 80
    ensures k == |records| || k == 3 || length(Cited(base, records, k + 1)) > limit - 80
  {
    k := 0;
    while k < |records| && k < MAX_RECORDS
      invariant k <= |records| && k <= MAX_RECORDS
      invariant forall j | 0 < j <= k :: length(Cited(base, records, j)) <= limit - RESERVE
    {
      if length(Cited(base, records, k + 1)) > limit - RESERVE {
        return;
      }
      k := k + 1;
    }
  }

  /** The view of k cited records with these excerpts. */
  function WithExcerpts(base: View, records: seq<Record>, k: nat, shown: seq<string>): View
    requires k <= |records|
  {
    Cited(base, records, k).(excerpts := shown, truncatedTexts := Shortened(shown, TextsOf(records[..k])))
  }

  /** The shown excerpts come from the first ones drop by drop, and no view on the way fitted. */
  ghost predicate TextsCutTo(base: View, records: seq<Record>, k: nat, limit: int, length: View -> nat,
                             first: seq<string>, shown: seq<string>)
    requires k <= |records|
  {
    exists stages | Leads(stages, first, shown) ::
      forall i | 0 <= i < |stages| - 1 :: length(WithExcerpts(base, records, k, stages[i])) > limit
  }

  lemma TextsUncut(base: View, records: seq<Record>, k: nat, limit: int, length: View -> nat, first: seq<string>)
    requires k <= |records|
    ensures TextsCutTo(base, records, k, limit, length, first, first)
  {
    assert Leads([first], first, first);
  }

  lemma TextsCutOnce(base: View, records: seq<Record>, k: nat, limit: int, length: View -> nat,
                     first: seq<string>, shown: seq<string>, next: seq<string>)
    requires k <= |records| && TextsCutTo(base, records, k, limit, length, first, shown) && OneDrop(shown, next)
    requires length(WithExcerpts(base, records, k, shown)) > limit
    ensures TextsCutTo(base, records, k, limit, length, first, next)
  {
    hide OneDrop, WithExcerpts;
    var stages :| Leads(stages, first, shown)
      && forall i | 0 <= i < |stages| - 1 :: length(WithExcerpts(base, records, k, stages[i])) > limit;
    assert Leads(stages + [next], first, next);
  }

  lemma NoTextLeft(view: View, texts: seq<string>, k: nat)
    requires |view.excerpts| == k && Total(view.excerpts) == 0
    ensures view.excerpts == seq(k, _ => "")
  {
    forall i | 0 <= i < k ensures view.excerpts[i] == "" { TotalCovers(view.excerpts, i); }
  }

  lemma {:induction false} TotalCovers(texts: seq<string>, i: nat)
    requires i < |texts|
    ensures |texts[i]| <= Total(texts)
  {
    if i > 0 { TotalCovers(texts[1..], i - 1); }
  }

  /** The third loop: drop characters of the longest excerpt until the view fits. */
  method FitExcerpts(base: View, records: seq<Record>, k: nat, limit: int, length: View -> nat)
    returns (view: View)
    requires OneDigitCounts(length)
    requires 0 < k <= |records| && k <= 3 && length(Cited(base, records, k)) <= limit
    ensures RecordsTold(view, records) && |view.records| == k && length(view) <= limit
    ensures view == WithExcerpts(base, records, k, view.excerpts)
    ensures TextsCutTo(base, records, k, limit, length, Starts(TextsOf(records[..k]), 100), view.excerpts)
  {
    var texts := TextsOf(records[..k]);
    var shown := seq(k, i requires 0 <= i < k => Cut(texts[i], EXCERPT_CHARS));
    view := WithExcerpts(base, records, k, shown);
    assert ArePrefixes(shown, texts, EXCERPT_CHARS) && shown == Starts(texts, 100);
    TextsUncut(base, records, k, limit, length, shown);
    hide OneDrop, Shortened, Total, ArePrefixes, WithExcerpts, OneDigitCounts, TextsCutTo, RecordsTold, Starts, Cited;
    while length(view) > limit
      invariant |shown| == k && ArePrefixes(shown, texts, EXCERPT_CHARS) && view == WithExcerpts(base, records, k, shown)
      invariant TextsCutTo(base, records, k, limit, length, Starts(texts, 100), shown)
      decreases Total(shown)
    {
      SomeTextIsLeft(base, records, k, shown, limit, length);
      ghost var before := shown;
      var i := Longest(shown);
      CutLongest(shown, texts, EXCERPT_CHARS);
      shown := shown[i := shown[i][..|shown[i]| - 1]];
      TextsCutOnce(base, records, k, limit, length, Starts(texts, 100), before, shown);
      view := WithExcerpts(base, records, k, shown);
    }
    ExcerptsAreTold(base, records, k, shown);
  }

  lemma ExcerptsAreTold(base: View, records: seq<Record>, k: nat, shown: seq<string>)
    requires k <= |records| && k <= 3 && |shown| == k && ArePrefixes(shown, TextsOf(records[..k]), 100)
    ensures var view := WithExcerpts(base, records, k, shown);
            RecordsTold(view, records) && |view.records| == k && view.excerpts == shown
  {
    assert |CitationsOf(records[..k])| == k;
  }

  /** A view that is too long has an excerpt with a character to cut. */
  lemma SomeTextIsLeft(base: View, records: seq<Record>, k: nat, shown: seq<string>, limit: int, length: View -> nat)
    requires OneDigitCounts(length) && 0 < k <= |records| && k <= 3 && |shown| == k
    requires length(Cited(base, records, k)) <= limit < length(WithExcerpts(base, records, k, shown))
    ensures shown[Longest(shown)] != ""
  {
    if shown[Longest(shown)] == "" {
      forall t | t in shown ensures t == "" {}
      TotalEmpty(shown);
      NoTextIsCited(base, records, k, shown, length);
    }
  }

  /** Without any text left the view is as long as the cited one. */
  lemma NoTextIsCited(base: View, records: seq<Record>, k: nat, shown: seq<string>, length: View -> nat)
    requires OneDigitCounts(length) && k <= |records| && k <= 3 && |shown| == k && Total(shown) == 0
    ensures var texts := TextsOf(records[..k]);
            length(Cited(base, records, k).(excerpts := shown, truncatedTexts := Shortened(shown, texts)))
            == length(Cited(base, records, k))
  {
    var texts := TextsOf(records[..k]);
    var cited := Cited(base, records, k);
    ShortenedAtMost(shown, texts);
    var view := cited.(excerpts := shown, truncatedTexts := Shortened(shown, texts));
    NoTextLeft(view, texts, k);
    assert view == cited.(truncatedTexts := Shortened(shown, texts));
    assert length(cited.(truncatedTexts := Shortened(shown, texts))) == length(cited.(truncatedTexts := k));
    assert cited.(truncatedTexts := k) == cited;
  }

  /** sum(len(e) > 80 for e in errors) */
  function CountLong(errors: seq<string>): nat {
    if errors == [] then 0 else (if |errors[0]| > ERROR_CHARS then 1 else 0) + CountLong(errors[1..])
  }

  lemma {:induction false} LongAreShortened(shown: seq<string>, errors: seq<string>)
    requires |shown| <= |errors| && forall i | 0 <= i < |shown| :: shown[i] == Cut(errors[i], 80)
    ensures Shortened(shown, errors) == CountLong(errors[..|shown|])
    decreases |shown|
  {
    if shown != [] {
      assert errors[..|shown|][1..] == errors[1..][..|shown| - 1];
      LongAreShortened(shown[1..], errors[1..]);
    }
  }

  /**
   Always ends. When the empty view fits, the result is an observation within the limit that
   shows a prefix of the records and of the errors, and whose counts are exact. None is the
   ValueError of looking for the longest of no excerpts.

   It cuts no more than it must: `kept` are the first errors, going down drop by drop from the first
   two cut to 80 characters, whose view fits; k is the first number of citations, up to three, that
   one more would take beyond the reserve; the excerpts are the first, going down drop by drop from
   100 characters each, whose view fits.
   */
  method RecallObservation(records: seq<Record>, errors: seq<string>, withheld: int, limit: int, length: View -> nat)
    returns (observation: Option<View>, ghost kept: seq<string>, ghost k: nat)
    requires OneDigitCounts(length)
    ensures length(EmptyView(records, errors, withheld)) <= limit ==> observation.Some?
    ensures observation.Some? ==>
      var view := observation.value;
      length(view) <= limit && view.withheld == withheld && ErrorsTold(view, errors) && RecordsTold(view, records)
    ensures ErrorsCutTo(records, errors, withheld, limit, length, Starts(errors[..Least(|errors|, 2)], 80), kept)
    ensures kept == [] || length(ErrorsView(records, errors, withheld, kept)) <= limit
    ensures k <= |records| && k <= 3
    ensures forall j | 0 < j <= k :: length(Cited(ErrorsView(records, errors, withheld, kept), records, j)) <= limit - 80
    ensures k == |records| || k == 3 || length(Cited(ErrorsView(records, errors, withheld, kept), records, k + 1)) > limit - 80
    ensures k == 0 ==>
      var view := ErrorsView(records, errors, withheld, kept);
      observation == if length(view) <= limit then Some(view) else None
    ensures k > 0 ==>
      var view := ErrorsView(records, errors, withheld, kept);
      && observation.Some?
      && observation.value == WithExcerpts(view, records, k, observation.value.excerpts)
      && TextsCutTo(view, records, k, limit, length, Starts(TextsOf(records[..k]), 100), observation.value.excerpts)
  {
    hide *;
    var start := FirstView(records, errors, withheld);
    var fitted := FitErrors(start, records, errors, withheld, limit, length);
    kept := fitted.errors;
    NothingCited(fitted, records, errors, withheld);
    var cited := CiteRecords(fitted, records, limit, length);
    k := cited;
    if cited > 0 {
      var view := FitExcerpts(fitted, records, cited, limit, length);
      ErrorsStayTold(fitted, records, view, errors, cited);
      observation := Some(view);
    } else {
      observation := if length(fitted) <= limit then Some(fitted) else None;
    }
  }

  /** The first errors, each cut once, before anything is known to fit. */
  method FirstView(records: seq<Record>, errors: seq<string>, withheld: int) returns (start: View)
    ensures start == ErrorsView(records, errors, withheld, start.errors) && ArePrefixes(start.errors, errors, 80)
    ensures |start.errors| <= 2 && start.errors == Starts(errors[..Least(|errors|, 2)], 80)
  {
    var n := Least(|errors|, MAX_ERRORS);
    var first := seq(n, i requires 0 <= i < n => Cut(errors[i], ERROR_CHARS));
    start := View(withheld, [], first, |records|, |errors| - n, CountLong(errors[..n]), 0, []);
    FirstErrors(records, errors, withheld, n, first);
  }

  lemma FirstErrors(records: seq<Record>, errors: seq<string>, withheld: int, n: nat, first: seq<string>)
    requires n == Least(|errors|, 2) && |first| == n && forall i | 0 <= i < n :: first[i] == Cut(errors[i], 80)
    ensures View(withheld, [], first, |records|, |errors| - n, CountLong(errors[..n]), 0, [])
         == ErrorsView(records, errors, withheld, first)
    ensures ArePrefixes(first, errors, 80) && first == Starts(errors[..n], 80)
  {
    LongAreShortened(first, errors);
    hide Shortened, CountLong;
  }

  lemma ErrorsStayTold(before: View, records: seq<Record>, after: View, errors: seq<string>, k: nat)
    requires ErrorsTold(before, errors) && k <= |records| && after == WithExcerpts(before, records, k, after.excerpts)
    ensures ErrorsTold(after, errors) && after.withheld == before.withheld
  {
  }

  lemma NothingCited(view: View, records: seq<Record>, errors: seq<string>, withheld: int)
    requires ArePrefixes(view.errors, errors, 80) && |view.errors| <= 2
    requires view == ErrorsView(records, errors, withheld, view.errors)
    ensures ErrorsTold(view, errors) && RecordsTold(view, records)
    ensures view.withheld == withheld && (view.errors == [] ==> view == EmptyView(records, errors, withheld))
  {
    assert CitationsOf(records[..0]) == [] && TextsOf(records[..0]) == [];
  }

  // ---- Workflow inventory ----

  datatype Row = Row(id: string, name: string, active: bool)

  datatype Shown = Shown(id: string, name: string, active: bool, nameTruncated: bool)

  datatype Page = Page(offset: nat, workflows: seq<Shown>, nextOffset: Option<nat>)

  const MAX_OFFSET := 1000

  function Whole(row: Row): Shown {
    Shown(row.id, row.name, row.active, false)
  }

  /** The first row of a page, its name cut to n characters. */
  function Named(row: Row, n: nat): Shown
    requires n <= |row.name|
  {
    Shown(row.id, row.name[..n], row.active, n < |row.name|)
  }

  function NextOffset(rows: seq<Row>, end: nat): Option<nat> {
    if end < |rows| then Some(end) else None
  }

  /** A page of k rows: the first with n characters of its name, the others whole. */
  function PageOf(rows: seq<Row>, offset: nat, n: nat, k: nat): Page
    requires offset + k <= |rows| && (k > 0 ==> n <= |rows[offset].name|)
  {
    Page(offset,
         seq(k, i requires 0 <= i < k => if i == 0 then Named(rows[offset], n) else Whole(rows[offset + i])),
         NextOffset(rows, offset + k))
  }

  lemma PageRows(rows: seq<Row>, offset: nat, n: nat, k: nat)
    requires offset + k <= |rows| && (k > 0 ==> n <= |rows[offset].name|)
    ensures |PageOf(rows, offset, n, k).workflows| == k
    ensures forall i | 0 <= i < k ::
      PageOf(rows, offset, n, k).workflows[i] ==
        if i == 0 then Shown(rows[offset].id, rows[offset].name[..n], rows[offset].active, n < |rows[offset].name|)
        else Shown(rows[offset + i].id, rows[offset + i].name, rows[offset + i].active, false)
  {
    forall i | 0 <= i < k
      ensures PageOf(rows, offset, n, k).workflows[i] == if i == 0 then Named(rows[offset], n) else Whole(rows[offset + i]) {}
  }

  /** A row with an empty name fits, wherever it stands. */
  ghost predicate BareRowsFit(rows: seq<Row>, limit: int, length: Page -> nat) {
    forall offset | 0 <= offset < |rows| :: length(PageOf(rows, offset, 0, 1)) <= limit
  }

  /** The most characters of the first name that fit, or none. */
  ghost predicate LongestName(rows: seq<Row>, offset: nat, n: nat, limit: int, length: Page -> nat)
    requires offset < |rows|
  {
    n <= |rows[offset].name|
    && (n > 0 ==> length(PageOf(rows, offset, n, 1)) <= limit)
    && forall m | n < m <= |rows[offset].name| :: length(PageOf(rows, offset, m, 1)) > limit
  }

  /** Shrinks the first name until the page fits or the name is gone. */
  method FitName(rows: seq<Row>, offset: nat, limit: int, length: Page -> nat) returns (n: nat)
    requires offset < |rows|
    ensures LongestName(rows, offset, n, limit, length)
  {
    n := |rows[offset].name|;
    while length(PageOf(rows, offset, n, 1)) > limit && n > 0
      invariant n <= |rows[offset].name|
      invariant forall m | n < m <= |rows[offset].name| :: length(PageOf(rows, offset, m, 1)) > limit
      decreases n
    {
      n := n - 1;
    }
  }

  /**
   One page: the longest name that fits for the first row, then whole rows up to the first
   that does not fit. A page over rows that fit bare is never empty, and where it ends the next begins.
   */
  method InventoryPage(rows: seq<Row>, offset: nat, limit: int, length: Page -> nat) returns (page: Page, n: nat, k: nat)
    ensures offset >= |rows| ==> page == Page(offset, [], None) && k == 0
    ensures offset < |rows| ==>
      offset + k <= |rows| && LongestName(rows, offset, n, limit, length) && page == PageOf(rows, offset, n, k)
    ensures offset < |rows| ==>
      && page.offset == offset && |page.workflows| == k
      && page.nextOffset == (if offset + k < |rows| then Some(offset + k) else None)
      && forall i | 0 <= i < k ::
           page.workflows[i] == if i == 0 then Shown(rows[offset].id, rows[offset].name[..n], rows[offset].active, n < |rows[offset].name|)
                                else Shown(rows[offset + i].id, rows[offset + i].name, rows[offset + i].active, false)
    ensures k > 0 ==> length(page) <= limit
    ensures forall j | 0 < j <= k && offset + j <= |rows| :: n <= |rows[offset].name| && length(PageOf(rows, offset, n, j)) <= limit
    ensures offset + k < |rows| ==> length(PageOf(rows, offset, n, k + 1)) > limit
    ensures BareRowsFit(rows, limit, length) && offset < |rows| ==> k > 0
  {
    n, k := 0, 0;
    if offset >= |rows| {
      page := Page(offset, [], None);
      return;
    }
    n := FitName(rows, offset, limit, length);
    while offset + k < |rows|
      invariant offset + k <= |rows|
      invariant forall j | 0 < j <= k :: length(PageOf(rows, offset, n, j)) <= limit
    {
      if length(PageOf(rows, offset, n, k + 1)) > limit {
        break;
      }
      k := k + 1;
    }
    page := PageOf(rows, offset, n, k);
    PageRows(rows, offset, n, k);
  }

  function IdsOf(rows: seq<Row>): seq<string> {
    seq(|rows|, i requires 0 <= i < |rows| => rows[i].id)
  }

  function ShownIds(workflows: seq<Shown>): seq<string> {
    seq(|workflows|, i requires 0 <= i < |workflows| => workflows[i].id)
  }

  /** A page shows exactly the rows from its offset to the next offset, by id and in order. */
  lemma PageShowsItsRows(rows: seq<Row>, offset: nat, n: nat, k: nat)
    requires offset + k <= |rows| && (k > 0 ==> n <= |rows[offset].name|)
    ensures ShownIds(PageOf(rows, offset, n, k).workflows) == IdsOf(rows[offset..offset + k])
    ensures PageOf(rows, offset, n, k).nextOffset == NextOffset(rows, offset + k)
  {
    var shown := PageOf(rows, offset, n, k).workflows;
    assert |shown| == k;
    forall i | 0 <= i < k ensures shown[i].id == rows[offset + i].id {
      if i == 0 { assert shown[0] == Named(rows[offset], n); }
    }
  }

  /**
   A reader that follows next_offset from 0 over a fixed list sees every row once, in order,
   and never needs an offset above the accepted 1000 when at most 1001 rows match.
   */
  method ReadEveryPage(rows: seq<Row>, limit: int, length: Page -> nat) returns (seen: seq<string>, offsets: seq<nat>)
    requires BareRowsFit(rows, limit, length)
    ensures seen == IdsOf(rows)
    ensures |rows| <= MAX_OFFSET + 1 ==> forall o | o in offsets :: o <= MAX_OFFSET
    ensures forall i, j | 0 <= i < j < |offsets| :: offsets[i] < offsets[j]
  {
    hide BareRowsFit, LongestName, PageOf;
    seen, offsets := [], [0];
    var page, n, k := InventoryPage(rows, 0, limit, length);
    if rows != [] { PageShowsItsRows(rows, 0, n, k); }
    seen := ShownIds(page.workflows);
    var read: nat := k;
    while page.nextOffset.Some?
      invariant read <= |rows| && page.nextOffset == NextOffset(rows, read)
      invariant seen == IdsOf(rows[..read])
      invariant offsets != [] && forall o | o in offsets :: o < |rows| || o == 0
      invariant offsets[|offsets| - 1] < read || rows == []
      invariant forall i, j | 0 <= i < j < |offsets| :: offsets[i] < offsets[j]
      decreases |rows| - read
    {
      var offset := page.nextOffset.value;
      offsets := offsets + [offset];
      page, n, k := InventoryPage(rows, offset, limit, length);
      PageShowsItsRows(rows, offset, n, k);
      assert rows[..read + k] == rows[..read] + rows[read..read + k];
      seen := seen + ShownIds(page.workflows);
      read := read + k;
    }
    assert rows[..read] == rows;
  }
}
