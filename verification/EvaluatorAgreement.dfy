/**
 Agreement of two raters over a declared task universe, `services/agent_evaluation.py`, over the reals.

 With n paired tasks, g agreements and p the sum over the verdicts of the products of the two
 raters' tallies, kappa is (g n - p) / (n n - p). It is defined unless p = n n, which happens
 only when both raters give one verdict throughout. The upper bound is g <= n. The lower bound
 is 2 p <= n n + n g: two raters who give a verdict s times between them, with s > n, agree on
 it at least s - n times, and at most one verdict can have such a sum.
 */
module EvaluatorAgreement {
  import opened Prelude
  import opened Strings

  const VERDICTS: seq<string> := ["VERIFIED", "FAILED", "UNVERIFIED"]

  datatype Agreement = Agreement(
    paired: nat,
    agreed: nat,
    missing: nat,
    disagreements: seq<string>,
    rate: Option<real>,
    kappa: Option<real>)

  datatype Error = BadTaskIds | VoteOutsideTasks | InvalidVote

  datatype Result = Ok(agreement: Agreement) | Err(error: Error)

  type Votes = map<string, string>

  predicate ValidTaskIds(tasks: seq<string>) {
    (forall i, j | 0 <= i < j < |tasks| :: tasks[i] != tasks[j])
    && forall t | t in tasks :: Strip(t, Blank) != ""
  }

  predicate Declared(votes: Votes, tasks: seq<string>) {
    forall t | t in votes :: t in tasks
  }

  predicate ValidVotes(votes: Votes) {
    forall t | t in votes :: votes[t] in VERDICTS
  }

  // ---- The comprehensions ----

  function Paired(tasks: seq<string>, left: Votes, right: Votes): (paired: seq<string>)
    ensures forall t :: t in paired <==> t in tasks && t in left && t in right
    ensures |paired| <= |tasks|
  {
    if tasks == [] then []
    else (if tasks[0] in left && tasks[0] in right then [tasks[0]] else []) + Paired(tasks[1..], left, right)
  }

  predicate VotesOn(votes: Votes, tasks: seq<string>) {
    forall t | t in tasks :: t in votes && votes[t] in VERDICTS
  }

  function Disagreements(paired: seq<string>, left: Votes, right: Votes): (differ: seq<string>)
    requires VotesOn(left, paired) && VotesOn(right, paired)
    ensures forall t :: t in differ <==> t in paired && left[t] != right[t]
    ensures |differ| <= |paired|
  {
    if paired == [] then []
    else (if left[paired[0]] != right[paired[0]] then [paired[0]] else []) + Disagreements(paired[1..], left, right)
  }

  /** How often one rater gave one verdict. */
  function Tally(paired: seq<string>, votes: Votes, verdict: string): nat
    requires VotesOn(votes, paired)
  {
    if paired == [] then 0 else (if votes[paired[0]] == verdict then 1 else 0) + Tally(paired[1..], votes, verdict)
  }

  /** The products of the two raters' tallies, summed over the verdicts. */
  function ChanceProducts(paired: seq<string>, left: Votes, right: Votes): nat
    requires VotesOn(left, paired) && VotesOn(right, paired)
  {
    Tally(paired, left, VERDICTS[0]) * Tally(paired, right, VERDICTS[0])
    + Tally(paired, left, VERDICTS[1]) * Tally(paired, right, VERDICTS[1])
    + Tally(paired, left, VERDICTS[2]) * Tally(paired, right, VERDICTS[2])
  }

  function Rate(n: nat, agreed: nat): (rate: Option<real>)
    ensures rate.None? <==> n == 0
    ensures rate.Some? ==> rate.value * n as real == agreed as real
  {
    if n == 0 then None else Some(agreed as real / n as real)
  }

  function Kappa(n: nat, agreed: nat, products: nat): Option<real> {
    if n == 0 then None
    else
      var rate, chance := agreed as real / n as real, products as real / (n * n) as real;
      if chance < 1.0 then Some((rate - chance) / (1.0 - chance)) else None
  }

  function Measure(tasks: seq<string>, left: Votes, right: Votes): Agreement
    requires ValidVotes(left) && ValidVotes(right)
  {
    var paired := Paired(tasks, left, right);
    var differ := Disagreements(paired, left, right);
    var n, agreed := |paired|, |paired| - |differ|;
    Agreement(n, agreed, |tasks| - n, differ,
              Rate(n, agreed),
              Kappa(n, agreed, ChanceProducts(paired, left, right)))
  }

  function EvaluatorAgreement(tasks: seq<string>, left: Votes, right: Votes): Result {
    if !ValidTaskIds(tasks) then Err(BadTaskIds)
    else if !Declared(left, tasks) then Err(VoteOutsideTasks)
    else if !ValidVotes(left) then Err(InvalidVote)
    else if !Declared(right, tasks) then Err(VoteOutsideTasks)
    else if !ValidVotes(right) then Err(InvalidVote)
    else Ok(Measure(tasks, left, right))
  }

  // ---- Tallies ----

  function Both(paired: seq<string>, left: Votes, right: Votes, verdict: string): nat
    requires VotesOn(left, paired) && VotesOn(right, paired)
  {
    if paired == [] then 0
    else (if left[paired[0]] == verdict && right[paired[0]] == verdict then 1 else 0)
         + Both(paired[1..], left, right, verdict)
  }

  lemma {:induction false} TalliesAddUp(paired: seq<string>, votes: Votes)
    requires VotesOn(votes, paired)
    ensures Tally(paired, votes, VERDICTS[0]) + Tally(paired, votes, VERDICTS[1]) + Tally(paired, votes, VERDICTS[2])
         == |paired|
  {
    if paired != [] {
      TalliesAddUp(paired[1..], votes);
      assert votes[paired[0]] in VERDICTS;
      DistinctVerdicts();
    }
  }

  lemma DistinctVerdicts()
    ensures VERDICTS[0] != VERDICTS[1] && VERDICTS[0] != VERDICTS[2] && VERDICTS[1] != VERDICTS[2]
  {
    assert VERDICTS[0][0] == 'V' && VERDICTS[1][0] == 'F' && VERDICTS[2][0] == 'U';
  }

  lemma {:induction false} BothAddUp(paired: seq<string>, left: Votes, right: Votes)
    requires VotesOn(left, paired) && VotesOn(right, paired)
    ensures Both(paired, left, right, VERDICTS[0]) + Both(paired, left, right, VERDICTS[1])
            + Both(paired, left, right, VERDICTS[2])
         == |paired| - |Disagreements(paired, left, right)|
  {
    if paired != [] {
      BothAddUp(paired[1..], left, right);
      assert left[paired[0]] in VERDICTS && right[paired[0]] in VERDICTS;
      DistinctVerdicts();
    }
  }

  /** Two raters giving one verdict often enough must give it together. */
  lemma {:induction false} Overlap(paired: seq<string>, left: Votes, right: Votes, verdict: string)
    requires VotesOn(left, paired) && VotesOn(right, paired)
    ensures Tally(paired, left, verdict) + Tally(paired, right, verdict)
         <= |paired| + Both(paired, left, right, verdict)
    ensures Both(paired, left, right, verdict) <= Tally(paired, left, verdict) <= |paired|
    ensures Both(paired, left, right, verdict) <= Tally(paired, right, verdict) <= |paired|
  {
    if paired != [] { Overlap(paired[1..], left, right, verdict); }
  }

  // ---- The inequality behind the lower bound ----

  lemma SquareAtLeast(l: nat, r: nat)
    ensures 4 * (l * r) <= (l + r) * (l + r)
  {
    assert (l + r) * (l + r) - 4 * (l * r) == (l - r) * (l - r);
    assert (l - r) * (l - r) >= 0;
  }

  lemma SmallSquare(s: nat, n: nat)
    requires s <= n
    ensures s * s <= n * s
  {
  }

  /** A sum of squares is at most the square of the sum. */
  lemma TwoSquares(a: nat, b: nat)
    ensures a * a + b * b <= (a + b) * (a + b)
  {
    assert (a + b) * (a + b) == a * a + b * b + 2 * (a * b);
  }

  /** (s - n)(s - 2n) <= 0 between n and 2n. */
  lemma BetweenRoots(n: nat, s: nat)
    requires n <= s <= 2 * n
    ensures s * s + 2 * (n * n) <= 3 * (n * s)
  {
    Nonneg(s - n, 2 * n - s);
    assert (s - n) * (2 * n - s) == 3 * (n * s) - s * s - 2 * (n * n);
  }

  /** One verdict dominates: its sum s exceeds n, the other two sums make up 2n. */
  lemma DominatedProducts(n: nat, s: nat, a: nat, b: nat, agreed: nat)
    requires n <= s && s + a + b == 2 * n && s <= n + agreed
    ensures s * s + a * a + b * b <= 2 * (n * n) + 2 * (n * agreed)
  {
    var rest := a + b;
    TwoSquares(a, b);
    BetweenRoots(n, s);
    RestSquared(n, s, rest);
    Scaled(n, s, n + agreed);
    Distributed(n, agreed);
  }

  lemma RestSquared(n: int, s: int, rest: int)
    requires rest == 2 * n - s
    ensures rest * rest == 4 * (n * n) - 4 * (n * s) + s * s
  {
  }

  lemma Distributed(n: int, agreed: int)
    ensures n * (n + agreed) == n * n + n * agreed
  {
  }

  lemma Scaled(n: nat, a: nat, b: nat)
    requires a <= b
    ensures n * a <= n * b
  {
  }

  lemma BalancedProducts(n: nat, s: nat, a: nat, b: nat)
    requires s <= n && a <= n && b <= n && s + a + b == 2 * n
    ensures s * s + a * a + b * b <= 2 * (n * n)
  {
    SmallSquare(s, n);
    SmallSquare(a, n);
    SmallSquare(b, n);
    assert n * s + n * a + n * b == n * (s + a + b) == 2 * (n * n);
  }

  /** 2 * sum(l_v * r_v) <= n*n + n*agreed over the three verdicts. */
  lemma ProductsBound(n: nat, agreed: nat, l0: nat, l1: nat, l2: nat, r0: nat, r1: nat, r2: nat)
    requires l0 + l1 + l2 == n && r0 + r1 + r2 == n
    requires l0 + r0 <= n + agreed && l1 + r1 <= n + agreed && l2 + r2 <= n + agreed
    ensures 2 * (l0 * r0 + l1 * r1 + l2 * r2) <= n * n + n * agreed
  {
    SquareAtLeast(l0, r0);
    SquareAtLeast(l1, r1);
    SquareAtLeast(l2, r2);
    SquaresBound(n, agreed, l0 + r0, l1 + r1, l2 + r2);
    Quarter(l0 * r0, l1 * r1, l2 * r2, (l0 + r0) * (l0 + r0), (l1 + r1) * (l1 + r1), (l2 + r2) * (l2 + r2),
            n * n + n * agreed);
  }

  lemma Quarter(p0: int, p1: int, p2: int, q0: int, q1: int, q2: int, bound: int)
    requires 4 * p0 <= q0 && 4 * p1 <= q1 && 4 * p2 <= q2 && q0 + q1 + q2 <= 2 * bound
    ensures 2 * (p0 + p1 + p2) <= bound
  {
  }

  lemma SquaresBound(n: nat, agreed: nat, s0: nat, s1: nat, s2: nat)
    requires s0 + s1 + s2 == 2 * n && s0 <= n + agreed && s1 <= n + agreed && s2 <= n + agreed
    ensures s0 * s0 + s1 * s1 + s2 * s2 <= 2 * (n * n + n * agreed)
  {
    Nonneg(n, agreed);
    if s0 > n {
      DominatedProducts(n, s0, s1, s2, agreed);
    } else if s1 > n {
      DominatedProducts(n, s1, s0, s2, agreed);
    } else if s2 > n {
      DominatedProducts(n, s2, s0, s1, agreed);
    } else {
      BalancedProducts(n, s0, s1, s2);
    }
  }

  lemma MeasureBounds(paired: seq<string>, left: Votes, right: Votes)
    requires VotesOn(left, paired) && VotesOn(right, paired)
    ensures var n, agreed := |paired|, |paired| - |Disagreements(paired, left, right)|;
            2 * ChanceProducts(paired, left, right) <= n * n + n * agreed
  {
    TalliesAddUp(paired, left);
    TalliesAddUp(paired, right);
    BothAddUp(paired, left, right);
    Overlap(paired, left, right, VERDICTS[0]);
    Overlap(paired, left, right, VERDICTS[1]);
    Overlap(paired, left, right, VERDICTS[2]);
    ProductsBound(|paired|, |paired| - |Disagreements(paired, left, right)|,
                  Tally(paired, left, VERDICTS[0]), Tally(paired, left, VERDICTS[1]), Tally(paired, left, VERDICTS[2]),
                  Tally(paired, right, VERDICTS[0]), Tally(paired, right, VERDICTS[1]), Tally(paired, right, VERDICTS[2]));
  }

  // ---- When kappa is defined ----

  /** Every paired task got one and the same verdict from both raters. */
  predicate OneVerdict(paired: seq<string>, left: Votes, right: Votes)
    requires VotesOn(left, paired) && VotesOn(right, paired)
  {
    exists v | v in VERDICTS :: forall t | t in paired :: left[t] == v && right[t] == v
  }

  lemma {:induction false} FullTally(paired: seq<string>, votes: Votes, verdict: string)
    requires VotesOn(votes, paired)
    ensures Tally(paired, votes, verdict) <= |paired|
    ensures Tally(paired, votes, verdict) == |paired| <==> forall t | t in paired :: votes[t] == verdict
  {
    if paired != [] {
      FullTally(paired[1..], votes, verdict);
      assert forall t :: t in paired <==> t == paired[0] || t in paired[1..];
    }
  }

  /** Products of tallies reach n*n only when both raters put everything on one verdict. */
  lemma ProductsFull(n: nat, l0: nat, l1: nat, l2: nat, r0: nat, r1: nat, r2: nat)
    requires n > 0 && l0 + l1 + l2 == n && r0 + r1 + r2 == n
    ensures l0 * r0 + l1 * r1 + l2 * r2 <= n * n
    ensures l0 * r0 + l1 * r1 + l2 * r2 == n * n
       <==> (l0 == n && r0 == n) || (l1 == n && r1 == n) || (l2 == n && r2 == n)
  {
    Spread(l0, l1, l2, n);
    Peel(l0, r0, r1 + r2);
    Peel(l1, r1, r0 + r2);
    Peel(l2, r2, r0 + r1);
    Nonneg(l0, r1 + r2);
    Nonneg(l1, r0 + r2);
    Nonneg(l2, r0 + r1);
  }

  lemma Spread(a: nat, b: nat, c: nat, n: nat)
    ensures (a + b + c) * n == a * n + b * n + c * n
  {
  }

  lemma Peel(l: nat, r: nat, rest: nat)
    ensures l * (r + rest) == l * r + l * rest
  {
  }

  lemma Nonneg(a: nat, b: nat)
    ensures a * b >= 0 && (a * b == 0 <==> a == 0 || b == 0)
  {
  }

  lemma DefinedExactly(paired: seq<string>, left: Votes, right: Votes)
    requires VotesOn(left, paired) && VotesOn(right, paired) && paired != []
    ensures ChanceProducts(paired, left, right) <= |paired| * |paired|
    ensures ChanceProducts(paired, left, right) == |paired| * |paired| <==> OneVerdict(paired, left, right)
  {
    TalliesAddUp(paired, left);
    TalliesAddUp(paired, right);
    FullTally(paired, left, VERDICTS[0]);
    FullTally(paired, left, VERDICTS[1]);
    FullTally(paired, left, VERDICTS[2]);
    FullTally(paired, right, VERDICTS[0]);
    FullTally(paired, right, VERDICTS[1]);
    FullTally(paired, right, VERDICTS[2]);
    ProductsFull(|paired|,
                 Tally(paired, left, VERDICTS[0]), Tally(paired, left, VERDICTS[1]), Tally(paired, left, VERDICTS[2]),
                 Tally(paired, right, VERDICTS[0]), Tally(paired, right, VERDICTS[1]), Tally(paired, right, VERDICTS[2]));
    assert forall v | v in VERDICTS :: v == VERDICTS[0] || v == VERDICTS[1] || v == VERDICTS[2];
  }

  lemma RealSquare(n: nat)
    ensures (n * n) as real == n as real * n as real
    ensures n > 0 ==> (n * n) as real > 0.0
  {
    if n > 0 { assert n * n > 0; }
  }

  lemma BelowOne(p: real, s: real)
    requires s > 0.0
    ensures p / s < 1.0 <==> p < s
  {
    assert (p / s) * s == p;
  }

  lemma RatioOfRatios(a: real, b: real, s: real)
    requires b > 0.0 && s > 0.0
    ensures b / s > 0.0 && (a / s) / (b / s) == a / b
  {
    assert (a / s) * s == a && (b / s) * s == b && (a / b) * b == a;
    assert ((a / b) * (b / s)) * s == (a / b) * b;
    assert (a / b) * (b / s) == a / s;
  }

  lemma CommonDenominator(g: real, n: real, p: real, s: real)
    requires n > 0.0 && s == n * n && s > 0.0
    ensures g / n - p / s == (g * n - p) / s
    ensures 1.0 - p / s == (s - p) / s
  {
    assert (g / n) * s == ((g / n) * n) * n == g * n;
    assert (p / s) * s == p;
    Cancel(g / n - p / s, (g * n - p) / s, s) by {
      assert (g / n - p / s) * s == (g / n) * s - (p / s) * s;
      assert ((g * n - p) / s) * s == g * n - p;
    }
    Cancel(1.0 - p / s, (s - p) / s, s) by {
      assert (1.0 - p / s) * s == s - (p / s) * s;
      assert ((s - p) / s) * s == s - p;
    }
  }

  lemma Cancel(x: real, y: real, s: real)
    requires s > 0.0 && x * s == y * s
    ensures x == y
  {
    assert (x - y) * s == 0.0;
  }

  /** The statistic is (g*n - p) / (n*n - p). */
  lemma KappaIs(n: nat, agreed: nat, products: nat)
    requires n > 0
    ensures var s, a := (n * n) as real, agreed as real * n as real;
            Kappa(n, agreed, products)
            == if products as real < s then Some((a - products as real) / (s - products as real)) else None
  {
    var s := (n * n) as real;
    RealSquare(n);
    BelowOne(products as real, s);
    CommonDenominator(agreed as real, n as real, products as real, s);
    if products as real < s {
      var a, p := agreed as real * n as real, products as real;
      RatioOfRatios(a - p, s - p, s);
      var rate, chance := agreed as real / n as real, p / s;
      assert rate - chance == (a - p) / s && 1.0 - chance == (s - p) / s;
      assert Kappa(n, agreed, products) == Some((rate - chance) / (1.0 - chance));
    }
  }

  lemma KappaRange(n: nat, agreed: nat, products: nat)
    requires n > 0 && agreed <= n && products <= n * n && 2 * products <= n * n + n * agreed
    ensures Kappa(n, agreed, products).Some? <==> products != n * n
    ensures Kappa(n, agreed, products).Some? ==>
      -1.0 <= Kappa(n, agreed, products).value <= 1.0 && (Kappa(n, agreed, products).value == 1.0 <==> agreed == n)
  {
    KappaIs(n, agreed, products);
    hide Kappa;
    var square, product := n * n, n * agreed;
    assert agreed as real * n as real == product as real;
    assert product <= square && (product == square <==> agreed == n) by { AgreedProduct(n, agreed); }
    if products != square {
      QuotientRange(product as real - products as real, square as real - products as real);
    }
  }

  lemma AgreedProduct(n: nat, agreed: nat)
    requires n > 0 && agreed <= n
    ensures n * agreed <= n * n && (n * agreed == n * n <==> agreed == n)
  {
    Nonneg(n, n - agreed);
    assert n * (n - agreed) == n * n - n * agreed;
  }

  lemma QuotientRange(a: real, b: real)
    requires b > 0.0 && -b <= a <= b
    ensures -1.0 <= a / b <= 1.0 && (a / b == 1.0 <==> a == b)
  {
    assert (a / b) * b == a;
  }

  ghost predicate Bounded(result: Agreement, paired: seq<string>, left: Votes, right: Votes)
    requires VotesOn(left, paired) && VotesOn(right, paired)
  {
    && (result.kappa.Some? <==> paired != [] && !OneVerdict(paired, left, right))
    && (result.kappa.Some? ==>
          -1.0 <= result.kappa.value <= 1.0 && (result.kappa.value == 1.0 <==> result.disagreements == []))
  }

  lemma KappaOfPaired(paired: seq<string>, left: Votes, right: Votes)
    requires VotesOn(left, paired) && VotesOn(right, paired) && paired != []
    ensures var differ := Disagreements(paired, left, right);
            var kappa := Kappa(|paired|, |paired| - |differ|, ChanceProducts(paired, left, right));
            (kappa.Some? <==> !OneVerdict(paired, left, right))
            && (kappa.Some? ==> -1.0 <= kappa.value <= 1.0 && (kappa.value == 1.0 <==> differ == []))
  {
    hide OneVerdict, ChanceProducts, Kappa, VERDICTS, Tally, Both, VotesOn;
    MeasureBounds(paired, left, right);
    DefinedExactly(paired, left, right);
    hide Disagreements;
    KappaRange(|paired|, |paired| - |Disagreements(paired, left, right)|, ChanceProducts(paired, left, right));
  }

  lemma MeasureIsBounded(tasks: seq<string>, left: Votes, right: Votes)
    requires ValidVotes(left) && ValidVotes(right)
    ensures Bounded(Measure(tasks, left, right), Paired(tasks, left, right), left, right)
  {
    hide OneVerdict, ChanceProducts, Kappa, Rate, VERDICTS, Tally, Disagreements, Paired;
    var paired := Paired(tasks, left, right);
    if paired != [] {
      KappaOfPaired(paired, left, right);
    } else {
      NoKappa(|paired| - |Disagreements(paired, left, right)|, ChanceProducts(paired, left, right));
    }
  }

  lemma NoKappa(agreed: nat, products: nat)
    ensures Kappa(0, agreed, products) == None
  {
  }

  /**
   Kappa is defined exactly when some task is paired and the raters do not both give one
   same verdict throughout; it lies in [-1, 1] and is 1 exactly when there is no disagreement.
   */
  lemma KappaIsBounded(tasks: seq<string>, left: Votes, right: Votes)
    requires EvaluatorAgreement(tasks, left, right).Ok?
    ensures Bounded(EvaluatorAgreement(tasks, left, right).agreement, Paired(tasks, left, right), left, right)
  {
    hide Bounded, Measure, ValidTaskIds;
    MeasureIsBounded(tasks, left, right);
  }

  lemma {:induction false} DisagreementsSwap(paired: seq<string>, left: Votes, right: Votes)
    requires VotesOn(left, paired) && VotesOn(right, paired)
    ensures Disagreements(paired, left, right) == Disagreements(paired, right, left)
  {
    if paired != [] { DisagreementsSwap(paired[1..], left, right); }
  }

  lemma {:induction false} PairedSwap(tasks: seq<string>, left: Votes, right: Votes)
    ensures Paired(tasks, left, right) == Paired(tasks, right, left)
  {
    if tasks != [] { PairedSwap(tasks[1..], left, right); }
  }

  lemma MeasureSwap(tasks: seq<string>, left: Votes, right: Votes)
    requires ValidVotes(left) && ValidVotes(right)
    ensures Measure(tasks, right, left) == Measure(tasks, left, right)
  {
    hide VERDICTS, Kappa, Rate, Tally;
    var paired := Paired(tasks, left, right);
    PairedSwap(tasks, left, right);
    DisagreementsSwap(paired, left, right);
    ProductsSwap(paired, left, right);
    hide ChanceProducts, Disagreements, Paired;
  }

  /** Which rater comes first makes no difference. */
  lemma AgreementIsSymmetric(tasks: seq<string>, left: Votes, right: Votes)
    requires EvaluatorAgreement(tasks, left, right).Ok?
    ensures EvaluatorAgreement(tasks, right, left) == EvaluatorAgreement(tasks, left, right)
  {
    hide ValidTaskIds, VERDICTS, Measure;
    MeasureSwap(tasks, left, right);
  }

  lemma ProductsSwap(paired: seq<string>, left: Votes, right: Votes)
    requires VotesOn(left, paired) && VotesOn(right, paired)
    ensures ChanceProducts(paired, left, right) == ChanceProducts(paired, right, left)
  {
    hide Tally;
    Commute(Tally(paired, left, VERDICTS[0]), Tally(paired, right, VERDICTS[0]));
    Commute(Tally(paired, left, VERDICTS[1]), Tally(paired, right, VERDICTS[1]));
    Commute(Tally(paired, left, VERDICTS[2]), Tally(paired, right, VERDICTS[2]));
  }

  lemma Commute(a: nat, b: nat)
    ensures a * b == b * a
  {
  }

  // ---- By counting ----

  /** The tasks both voted on. */
  ghost function OnBoth(tasks: seq<string>, left: Votes, right: Votes): set<string> {
    set t | t in tasks && t in left && t in right
  }

  ghost function Voting(tasks: set<string>, votes: Votes, verdict: string): set<string> {
    set t | t in tasks && t in votes && votes[t] == verdict
  }

  ghost predicate InOrderOf(some: seq<string>, all: seq<string>)
    decreases |some|
  {
    some == [] || exists i | 0 <= i < |all| :: all[i] == some[0] && InOrderOf(some[1..], all[i + 1..])
  }

  lemma {:induction false} OrderGrows(some: seq<string>, all: seq<string>)
    requires all != [] && InOrderOf(some, all[1..])
    ensures InOrderOf(some, all)
  {
    if some != [] {
      var i :| 0 <= i < |all[1..]| && all[1..][i] == some[0] && InOrderOf(some[1..], all[1..][i + 1..]);
      assert all[1..][i + 1..] == all[i + 2..];
      assert all[i + 1] == some[0] && InOrderOf(some[1..], all[(i + 1) + 1..]);
    }
  }

  lemma OrderStarts(one: string, some: seq<string>, all: seq<string>)
    requires all != [] && all[0] == one && InOrderOf(some, all[1..])
    ensures InOrderOf([one] + some, all)
  {
    assert ([one] + some)[1..] == some;
    assert all[0] == ([one] + some)[0] && InOrderOf(some, all[0 + 1..]);
  }

  ghost predicate NoTwice(tasks: seq<string>) {
    forall i, j | 0 <= i < j < |tasks| :: tasks[i] != tasks[j]
  }

  lemma {:induction false} PairedIs(tasks: seq<string>, left: Votes, right: Votes)
    requires NoTwice(tasks)
    ensures NoTwice(Paired(tasks, left, right)) && InOrderOf(Paired(tasks, left, right), tasks)
  {
    if tasks != [] {
      var rest := Paired(tasks[1..], left, right);
      PairedIs(tasks[1..], left, right);
      if tasks[0] in left && tasks[0] in right {
        assert tasks[0] !in rest;
        OrderStarts(tasks[0], rest, tasks);
      } else {
        OrderGrows(rest, tasks);
        assert Paired(tasks, left, right) == rest;
      }
    }
  }

  lemma {:induction false} DifferIs(paired: seq<string>, left: Votes, right: Votes)
    requires NoTwice(paired) && VotesOn(left, paired) && VotesOn(right, paired)
    ensures NoTwice(Disagreements(paired, left, right)) && InOrderOf(Disagreements(paired, left, right), paired)
  {
    if paired != [] {
      var rest := Disagreements(paired[1..], left, right);
      DifferIs(paired[1..], left, right);
      if left[paired[0]] != right[paired[0]] {
        assert paired[0] !in rest;
        OrderStarts(paired[0], rest, paired);
      } else {
        OrderGrows(rest, paired);
        assert Disagreements(paired, left, right) == rest;
      }
    }
  }

  lemma {:induction false} Size(tasks: seq<string>, members: set<string>)
    requires NoTwice(tasks) && forall t :: t in tasks <==> t in members
    ensures |members| == |tasks|
  {
    if tasks == [] {
      assert members == {};
    } else {
      assert tasks[0] in tasks && forall t | t in tasks[1..] :: t in tasks && t != tasks[0];
      Size(tasks[1..], members - {tasks[0]});
    }
  }

  lemma {:induction false} TallyIs(paired: seq<string>, votes: Votes, verdict: string, members: set<string>)
    requires NoTwice(paired) && VotesOn(votes, paired) && forall t :: t in paired <==> t in members
    ensures Tally(paired, votes, verdict) == |Voting(members, votes, verdict)|
  {
    if paired == [] {
      assert Voting(members, votes, verdict) == {};
    } else {
      var one := paired[0];
      assert one in paired && forall t | t in paired[1..] :: t in paired && t != one;
      TallyIs(paired[1..], votes, verdict, members - {one});
      hide NoTwice, VERDICTS;
      assert Voting(members, votes, verdict)
          == Voting(members - {one}, votes, verdict) + (if votes[one] == verdict then {one} else {});
    }
  }

  /** What is refused, and in which order the checks come. */
  lemma RefusedExactly(tasks: seq<string>, left: Votes, right: Votes)
    ensures EvaluatorAgreement(tasks, left, right)
         == if (exists i, j | 0 <= i < j < |tasks| :: tasks[i] == tasks[j])
               || exists t | t in tasks :: forall c | c in t :: Blank(c) then Err(BadTaskIds)
            else if exists t | t in left :: t !in tasks then Err(VoteOutsideTasks)
            else if exists t | t in left :: left[t] !in ["VERIFIED", "FAILED", "UNVERIFIED"] then Err(InvalidVote)
            else if exists t | t in right :: t !in tasks then Err(VoteOutsideTasks)
            else if exists t | t in right :: right[t] !in ["VERIFIED", "FAILED", "UNVERIFIED"] then Err(InvalidVote)
            else Ok(Measure(tasks, left, right))
  {
    hide Measure;
    forall t ensures Strip(t, Blank) == "" <==> forall c | c in t :: Blank(c) {
      StripIs(t, Blank, Strip(t, Blank));
    }
    hide Strip, Stripped;
  }

  /** The sum, over the verdicts, of how many tasks each rater gave it to, multiplied. */
  ghost function CountedProducts(both: set<string>, left: Votes, right: Votes): nat {
    |Voting(both, left, "VERIFIED")| * |Voting(both, right, "VERIFIED")|
    + |Voting(both, left, "FAILED")| * |Voting(both, right, "FAILED")|
    + |Voting(both, left, "UNVERIFIED")| * |Voting(both, right, "UNVERIFIED")|
  }

  lemma ProductsCount(paired: seq<string>, left: Votes, right: Votes, both: set<string>)
    requires NoTwice(paired) && VotesOn(left, paired) && VotesOn(right, paired) && forall t :: t in paired <==> t in both
    ensures ChanceProducts(paired, left, right) == CountedProducts(both, left, right)
  {
    TallyIs(paired, left, "VERIFIED", both);
    TallyIs(paired, left, "FAILED", both);
    TallyIs(paired, left, "UNVERIFIED", both);
    TallyIs(paired, right, "VERIFIED", both);
    TallyIs(paired, right, "FAILED", both);
    TallyIs(paired, right, "UNVERIFIED", both);
    hide Tally, Voting, VotesOn, NoTwice;
  }

  lemma Measured(tasks: seq<string>, left: Votes, right: Votes)
    requires EvaluatorAgreement(tasks, left, right).Ok?
    ensures var a, paired := EvaluatorAgreement(tasks, left, right).agreement, Paired(tasks, left, right);
      && NoTwice(tasks) && VotesOn(left, paired) && VotesOn(right, paired)
      && a.paired == |paired| && a.missing == |tasks| - |paired| && a.agreed == |paired| - |a.disagreements|
      && a.disagreements == Disagreements(paired, left, right)
      && a.rate == Rate(|paired|, a.agreed) && a.kappa == Kappa(|paired|, a.agreed, ChanceProducts(paired, left, right))
    ensures forall t :: t in Paired(tasks, left, right) <==> t in OnBoth(tasks, left, right)
    ensures forall t | t in OnBoth(tasks, left, right) :: t in left && t in right
  {
    hide Kappa, Rate, ChanceProducts, Strip, Paired, Disagreements;
  }

  /** The statistic, by counting tasks. */
  lemma AgreementCounts(tasks: seq<string>, left: Votes, right: Votes)
    requires EvaluatorAgreement(tasks, left, right).Ok?
    ensures var a, both := EvaluatorAgreement(tasks, left, right).agreement, OnBoth(tasks, left, right);
      && a.paired == |both| && a.missing == |tasks| - |both| && a.agreed == |both| - |a.disagreements|
      && (forall t :: t in a.disagreements <==> t in both && left[t] != right[t])
      && NoTwice(a.disagreements) && InOrderOf(a.disagreements, Paired(tasks, left, right))
      && InOrderOf(Paired(tasks, left, right), tasks)
      && a.rate == Rate(|both|, a.agreed)
      && a.kappa == Kappa(|both|, a.agreed, CountedProducts(both, left, right))
  {
    hide *;
    var paired, both := Paired(tasks, left, right), OnBoth(tasks, left, right);
    Measured(tasks, left, right);
    PairedIs(tasks, left, right);
    Size(paired, both);
    DifferIs(paired, left, right);
    ProductsCount(paired, left, right, both);
  }
}
