/** Scoring the review-quality corpus (crates/revoot-core/src/evaluation.rs, lines 17-313). */
module Evaluation {
  import opened Wrappers
  import opened Words
  import opened Sorting
  import Findings

  type Category = Findings.Category

  const SCHEMA := "revoot.evaluation-case/v1"
  const FULL := 10_000
  const CATEGORIES := [Findings.Correctness, Findings.Security, Findings.Reliability, Findings.Performance, Findings.Maintainability]

  /** The identity by which expectations and reports are matched. */
  datatype Defect = Defect(anchorId: string, category: Category)

  datatype Case = Case(schema: string, id: string, clean: bool, expected: seq<Defect>)

  /** A case and the identities of the findings reported for it. */
  datatype Run = Run(testCase: Case, reports: seq<Defect>)

  datatype Counts = Counts(
    expected: nat, reported: nat, truePositive: nat, falsePositive: nat, falseNegative: nat, duplicates: nat,
    cleanCases: nat, noisyCleanCases: nat)
  {
    /** Every count fits the score type. */
    predicate Fits() {
      && expected <= U32_MAX && reported <= U32_MAX && truePositive <= U32_MAX && falsePositive <= U32_MAX
      && falseNegative <= U32_MAX && duplicates <= U32_MAX && cleanCases <= U32_MAX && noisyCleanCases <= U32_MAX
    }

    function Plus(o: Counts): Counts {
      Counts(expected + o.expected, reported + o.reported, truePositive + o.truePositive, falsePositive + o.falsePositive,
             falseNegative + o.falseNegative, duplicates + o.duplicates, cleanCases + o.cleanCases,
             noisyCleanCases + o.noisyCleanCases)
    }
  }

  datatype EvaluationError =
    | SchemaVersion | CaseId | ContradictoryCleanCase | DuplicateExpectedDefect | InvalidThreshold | CountOverflow

  predicate IdChar(c: char) {
    'a' <= c <= 'z' || 'A' <= c <= 'Z' || '0' <= c <= '9' || c in "-_./"
  }

  predicate WellNamed(id: string) {
    0 < |id| <= 128 && forall i :: 0 <= i < |id| ==> IdChar(id[i])
  }

  /** A case that can be scored. */
  ghost predicate Scorable(c: Case) {
    && c.schema == SCHEMA
    && WellNamed(c.id)
    && (c.clean <==> c.expected == [])
    && Distinct(c.expected)
  }

  // ----- one case

  /** The exact match of a case with its reports. */
  function CountsOf(r: Run): Counts {
    var expected, observed := SetOf(r.testCase.expected), SetOf(r.reports);
    Counts(
      |expected|, |r.reports|, |expected * observed|, |observed - expected|, |expected - observed|,
      if |observed| <= |r.reports| then |r.reports| - |observed| else 0,
      if r.testCase.clean then 1 else 0,
      if r.testCase.clean && r.reports != [] then 1 else 0)
  }

  lemma {:induction false} SetOfSize<T>(s: seq<T>)
    ensures |SetOf(s)| <= |s|
    ensures |SetOf(s)| == |s| <==> Distinct(s)
  {
    if s != [] {
      var n := |s| - 1;
      SetOfSize(s[..n]);
      assert s == s[..n] + [s[n]];
      DistinctSnoc(s[..n], s[n]);
      assert SetOf(s) == SetOf(s[..n]) + {s[n]};
    }
  }

  lemma Partition<T>(a: set<T>, b: set<T>)
    ensures |a * b| + |a - b| == |a|
  {
    assert a == a * b + (a - b);
  }

  /** Every expected defect is found or missed, and every report is a hit, a false alarm or a repetition. */
  lemma CaseBalances(r: Run)
    requires Distinct(r.testCase.expected)
    ensures var c := CountsOf(r);
      && c.expected == |r.testCase.expected| == c.truePositive + c.falseNegative
      && c.reported == c.truePositive + c.falsePositive + c.duplicates
  {
    var expected, observed := SetOf(r.testCase.expected), SetOf(r.reports);
    SetOfSize(r.testCase.expected);
    SetOfSize(r.reports);
    Partition(expected, observed);
    Partition(observed, expected);
    assert observed * expected == expected * observed;
  }

  /** `e` is the first rule that the case violates. */
  ghost predicate Refuses(r: Run, e: EvaluationError) {
    var c := r.testCase;
    match e
    case SchemaVersion => c.schema != "revoot.evaluation-case/v1"
    case CaseId => c.schema == SCHEMA && (|c.id| == 0 || |c.id| > 128 || exists i :: 0 <= i < |c.id| && !IdChar(c.id[i]))
    case ContradictoryCleanCase => c.schema == SCHEMA && WellNamed(c.id) && (c.clean <==> |c.expected| > 0)
    case DuplicateExpectedDefect => c.schema == SCHEMA && WellNamed(c.id) && (c.clean <==> c.expected == []) && !Distinct(c.expected)
    case CountOverflow => Scorable(c) && !CountsOf(r).Fits()
    case InvalidThreshold => false
  }

  /** `EvaluationCase::score`: the first violated rule, or the exact counts. */
  method Score(r: Run) returns (s: Result<Counts, EvaluationError>)
    ensures s.Success? <==> Scorable(r.testCase) && CountsOf(r).Fits()
    ensures s.Success? ==> s.value == CountsOf(r)
    ensures s.Failure? ==> Refuses(r, s.error)
  {
    var c := r.testCase;
    if c.schema != SCHEMA {
      return Failure(SchemaVersion);
    }
    if c.id == "" || |c.id| > 128 || exists i :: 0 <= i < |c.id| && !IdChar(c.id[i]) {
      return Failure(CaseId);
    }
    if c.clean != (c.expected == []) {
      return Failure(ContradictoryCleanCase);
    }
    SetOfSize(c.expected);
    if |SetOf(c.expected)| != |c.expected| {
      return Failure(DuplicateExpectedDefect);
    }
    var counts := CountsOf(r);
    if !counts.Fits() {
      return Failure(CountOverflow);
    }
    return Success(counts);
  }

  // ----- the corpus

  function Total(runs: seq<Run>): Counts {
    if runs == [] then Counts(0, 0, 0, 0, 0, 0, 0, 0) else Total(runs[..|runs| - 1]).Plus(CountsOf(runs[|runs| - 1]))
  }

  /** Expected defects of one category, and those of them that were reported. */
  function ExpectedIn(expected: seq<Defect>, c: Category): nat {
    if expected == [] then 0
    else
      var n := |expected| - 1;
      ExpectedIn(expected[..n], c) + if expected[n].category == c then 1 else 0
  }

  function FoundIn(expected: seq<Defect>, observed: set<Defect>, c: Category): nat {
    if expected == [] then 0
    else
      var n := |expected| - 1;
      FoundIn(expected[..n], observed, c) + if expected[n].category == c && expected[n] in observed then 1 else 0
  }

  function TotalExpectedIn(runs: seq<Run>, c: Category): nat {
    if runs == [] then 0
    else
      var n := |runs| - 1;
      TotalExpectedIn(runs[..n], c) + ExpectedIn(runs[n].testCase.expected, c)
  }

  function TotalFoundIn(runs: seq<Run>, c: Category): nat {
    if runs == [] then 0
    else
      var n := |runs| - 1;
      TotalFoundIn(runs[..n], c) + FoundIn(runs[n].testCase.expected, SetOf(runs[n].reports), c)
  }

  /** The sum of a count over the five categories. */
  function SumCategories(f: Category -> nat): nat {
    f(Findings.Correctness) + f(Findings.Security) + f(Findings.Reliability) + f(Findings.Performance) + f(Findings.Maintainability)
  }

  /** One more in one category is one more in the sum. */
  lemma SumPlus(f: Category -> nat, g: Category -> nat, at: Category, k: nat)
    requires forall c :: g(c) == f(c) + (if c == at then k else 0)
    ensures SumCategories(g) == SumCategories(f) + k
  {
  }

  lemma {:induction false} ExpectedByCategory(expected: seq<Defect>)
    ensures SumCategories(c => ExpectedIn(expected, c)) == |expected|
  {
    if expected != [] {
      var n := |expected| - 1;
      ExpectedByCategory(expected[..n]);
      SumPlus(c => ExpectedIn(expected[..n], c), c => ExpectedIn(expected, c), expected[n].category, 1);
    }
  }

  lemma HitSnoc(before: seq<Defect>, last: Defect, observed: set<Defect>)
    requires last !in before
    ensures |SetOf(before + [last]) * observed| == |SetOf(before) * observed| + if last in observed then 1 else 0
  {
    var hits := SetOf(before) * observed;
    if last in observed {
      assert SetOf(before + [last]) * observed == hits + {last};
    } else {
      assert SetOf(before + [last]) * observed == hits;
    }
  }

  lemma {:induction false} FoundByCategory(expected: seq<Defect>, observed: set<Defect>)
    requires Distinct(expected)
    ensures SumCategories(c => FoundIn(expected, observed, c)) == |SetOf(expected) * observed|
  {
    if expected == [] {
      assert SetOf(expected) * observed == {};
    } else {
      var n := |expected| - 1;
      FoundByCategory(expected[..n], observed);
      assert expected == expected[..n] + [expected[n]];
      DistinctSnoc(expected[..n], expected[n]);
      HitSnoc(expected[..n], expected[n], observed);
      SumPlus(c => FoundIn(expected[..n], observed, c), c => FoundIn(expected, observed, c),
              expected[n].category, if expected[n] in observed then 1 else 0);
    }
  }

  lemma {:induction false} FoundAmongExpected(expected: seq<Defect>, observed: set<Defect>, c: Category)
    ensures FoundIn(expected, observed, c) <= ExpectedIn(expected, c)
  {
    if expected != [] {
      FoundAmongExpected(expected[..|expected| - 1], observed, c);
    }
  }

  /** The category counts add up to the corpus totals. */
  lemma {:induction false} CategoriesAddUp(runs: seq<Run>)
    requires forall r :: r in runs ==> Distinct(r.testCase.expected)
    ensures SumCategories(c => TotalExpectedIn(runs, c)) == Total(runs).expected
    ensures SumCategories(c => TotalFoundIn(runs, c)) == Total(runs).truePositive
    ensures forall c :: TotalFoundIn(runs, c) <= TotalExpectedIn(runs, c)
  {
    if runs != [] {
      var n := |runs| - 1;
      assert forall r :: r in runs[..n] ==> r in runs;
      CategoriesAddUp(runs[..n]);
      assert runs[n] in runs;
      ExpectedByCategory(runs[n].testCase.expected);
      FoundByCategory(runs[n].testCase.expected, SetOf(runs[n].reports));
      SetOfSize(runs[n].testCase.expected);
      forall c ensures TotalFoundIn(runs, c) <= TotalExpectedIn(runs, c) {
        FoundAmongExpected(runs[n].testCase.expected, SetOf(runs[n].reports), c);
      }
    }
  }

  /** What holds of every case holds of the corpus; so true and false positives together never exceed
      the reports, and adding them cannot saturate a count that fits. */
  lemma {:induction false} CorpusBalances(runs: seq<Run>)
    requires forall r :: r in runs ==> Distinct(r.testCase.expected)
    ensures var t := Total(runs);
      && t.expected == t.truePositive + t.falseNegative
      && t.reported == t.truePositive + t.falsePositive + t.duplicates
      && (t.Fits() ==> t.truePositive + t.falsePositive <= U32_MAX)
      && t.noisyCleanCases <= t.cleanCases <= |runs|
  {
    if runs != [] {
      var n := |runs| - 1;
      assert forall r :: r in runs[..n] ==> r in runs;
      CorpusBalances(runs[..n]);
      assert runs[n] in runs;
      CaseBalances(runs[n]);
    }
  }

  // ----- ratios

  function Quotient(a: nat, b: nat): nat
    requires b > 0
  {
    a / b
  }

  /** `ratio_basis_points`. */
  function Ratio(numerator: nat, denominator: nat, emptyIsPerfect: bool): (r: nat)
    ensures r <= FULL
  {
    if denominator == 0 then if emptyIsPerfect then FULL else 0
    else
      var scaled := Quotient(numerator * FULL, denominator);
      if scaled <= FULL then scaled else FULL
  }

  /** `saturating_add`. */
  function SaturatingSum(a: nat, b: nat): nat {
    if a + b <= U32_MAX then a + b else U32_MAX
  }

  datatype CorpusScore = CorpusScore(
    cases: nat, counts: Counts, precision: nat, recall: nat, categoryRecall: map<Category, nat>)

  function CategoryRecall(runs: seq<Run>): map<Category, nat> {
    map c: Category | c in CATEGORIES && TotalExpectedIn(runs, c) > 0 :: Ratio(TotalFoundIn(runs, c), TotalExpectedIn(runs, c), true)
  }

  function ScoreOf(runs: seq<Run>): CorpusScore {
    var t := Total(runs);
    CorpusScore(
      |runs|, t, Ratio(t.truePositive, SaturatingSum(t.truePositive, t.falsePositive), t.expected == 0),
      Ratio(t.truePositive, t.expected, true), CategoryRecall(runs))
  }

  lemma QuotientBounds(a: nat, b: nat)
    requires b > 0
    ensures Quotient(a, b) * b <= a < (Quotient(a, b) + 1) * b
  {
  }

  lemma ProductGrows(x: nat, y: nat, b: nat)
    requires x <= y
    ensures x * b <= y * b
  {
  }

  lemma QuotientAtLeast(a: nat, b: nat, m: nat)
    requires b > 0
    ensures m <= Quotient(a, b) <==> m * b <= a
  {
    QuotientBounds(a, b);
    var q := Quotient(a, b);
    if m <= q {
      ProductGrows(m, q, b);
    } else {
      ProductGrows(q + 1, m, b);
    }
  }

  /** A ratio of a part to its whole is never capped. */
  lemma RatioAtLeast(found: nat, expected: nat, m: nat)
    requires found <= expected && expected > 0
    ensures m <= Ratio(found, expected, true) <==> m * expected <= found * FULL
  {
    QuotientAtLeast(found * FULL, expected, m);
    QuotientAtLeast(found * FULL, expected, FULL + 1);
    assert found * FULL <= expected * FULL < (FULL + 1) * expected;
  }

  lemma RatioAtMost(found: nat, expected: nat, m: nat)
    requires found <= expected && expected > 0
    ensures Ratio(found, expected, true) <= m <==> found * FULL < (m + 1) * expected
  {
    RatioAtLeast(found, expected, m + 1);
  }

  lemma SumScales(m: nat, a: nat, b: nat, c: nat, d: nat, e: nat)
    ensures m * (a + b + c + d + e) == m * a + m * b + m * c + m * d + m * e
  {
  }

  /** A category whose recall is at least `m` has found its share. */
  lemma {:induction false} ShareOf(runs: seq<Run>, c: Category, m: nat)
    requires TotalFoundIn(runs, c) <= TotalExpectedIn(runs, c)
    requires c in CategoryRecall(runs) ==> m <= CategoryRecall(runs)[c]
    ensures m * TotalExpectedIn(runs, c) <= TotalFoundIn(runs, c) * FULL
  {
    if TotalExpectedIn(runs, c) > 0 {
      EveryCategory(c);
      RatioAtLeast(TotalFoundIn(runs, c), TotalExpectedIn(runs, c), m);
    }
  }

  /** A category whose recall is at most `m` has found less than the share of `m + 1`. */
  ghost predicate BelowShare(runs: seq<Run>, c: Category, m: nat) {
    && TotalFoundIn(runs, c) * FULL <= (m + 1) * TotalExpectedIn(runs, c)
    && (TotalExpectedIn(runs, c) > 0 ==> TotalFoundIn(runs, c) * FULL < (m + 1) * TotalExpectedIn(runs, c))
  }

  lemma {:induction false} ShareBelow(runs: seq<Run>, c: Category, m: nat)
    requires TotalFoundIn(runs, c) <= TotalExpectedIn(runs, c)
    requires c in CategoryRecall(runs) ==> CategoryRecall(runs)[c] <= m
    ensures BelowShare(runs, c, m)
  {
    if TotalExpectedIn(runs, c) > 0 {
      EveryCategory(c);
      RatioAtMost(TotalFoundIn(runs, c), TotalExpectedIn(runs, c), m);
    }
  }

  lemma EveryCategory(c: Category)
    ensures c in CATEGORIES
  {
    match c
    case Correctness => assert CATEGORIES[0] == c;
    case Security => assert CATEGORIES[1] == c;
    case Reliability => assert CATEGORIES[2] == c;
    case Performance => assert CATEGORIES[3] == c;
    case Maintainability => assert CATEGORIES[4] == c;
  }

  lemma {:induction false} RecallAtLeast(runs: seq<Run>, m: nat)
    requires forall r :: r in runs ==> Distinct(r.testCase.expected)
    requires Total(runs).expected > 0
    requires forall c :: c in CategoryRecall(runs) ==> m <= CategoryRecall(runs)[c]
    ensures m <= Ratio(Total(runs).truePositive, Total(runs).expected, true)
  {
    CategoriesAddUp(runs);
    CorpusBalances(runs);
    forall c: Category ensures m * TotalExpectedIn(runs, c) <= TotalFoundIn(runs, c) * FULL { ShareOf(runs, c, m); }
    SumAtLeast(runs, m);
    RatioAtLeast(Total(runs).truePositive, Total(runs).expected, m);
  }

  lemma {:induction false} FoundBelowShare(runs: seq<Run>, m: nat)
    requires forall r :: r in runs ==> Distinct(r.testCase.expected)
    requires Total(runs).expected > 0
    requires forall c :: c in CategoryRecall(runs) ==> CategoryRecall(runs)[c] <= m
    ensures Total(runs).truePositive * FULL < (m + 1) * Total(runs).expected
  {
    CategoriesAddUp(runs);
    forall c: Category ensures BelowShare(runs, c, m) { ShareBelow(runs, c, m); }
    SumBelow(runs, m);
  }

  lemma {:induction false} RecallAtMost(runs: seq<Run>, m: nat)
    requires forall r :: r in runs ==> Distinct(r.testCase.expected)
    requires Total(runs).expected > 0
    requires forall c :: c in CategoryRecall(runs) ==> CategoryRecall(runs)[c] <= m
    ensures Ratio(Total(runs).truePositive, Total(runs).expected, true) <= m
  {
    CorpusBalances(runs);
    FoundBelowShare(runs, m);
    RatioAtMost(Total(runs).truePositive, Total(runs).expected, m);
  }

  /** The floored recall of a corpus lies between the smallest and the largest floored recall of its
      categories: every bound on all of them is a bound on it. */
  lemma {:induction false} RecallBetween(runs: seq<Run>, m: nat)
    requires forall r :: r in runs ==> Distinct(r.testCase.expected)
    requires Total(runs).expected > 0
    ensures var s := ScoreOf(runs);
      && ((forall c :: c in s.categoryRecall ==> m <= s.categoryRecall[c]) ==> m <= s.recall)
      && ((forall c :: c in s.categoryRecall ==> s.categoryRecall[c] <= m) ==> s.recall <= m)
  {
    if forall c :: c in CategoryRecall(runs) ==> m <= CategoryRecall(runs)[c] {
      RecallAtLeast(runs, m);
    }
    if forall c :: c in CategoryRecall(runs) ==> CategoryRecall(runs)[c] <= m {
      RecallAtMost(runs, m);
    }
  }

  lemma SumAtLeast(runs: seq<Run>, m: nat)
    requires forall c: Category :: m * TotalExpectedIn(runs, c) <= TotalFoundIn(runs, c) * FULL
    ensures m * SumCategories(c => TotalExpectedIn(runs, c)) <= SumCategories(c => TotalFoundIn(runs, c)) * FULL
  {
    SumScales(m, TotalExpectedIn(runs, Findings.Correctness), TotalExpectedIn(runs, Findings.Security),
              TotalExpectedIn(runs, Findings.Reliability), TotalExpectedIn(runs, Findings.Performance),
              TotalExpectedIn(runs, Findings.Maintainability));
  }

  lemma SumBelow(runs: seq<Run>, m: nat)
    requires forall c: Category :: BelowShare(runs, c, m)
    requires SumCategories(c => TotalExpectedIn(runs, c)) > 0
    ensures SumCategories(c => TotalFoundIn(runs, c)) * FULL < (m + 1) * SumCategories(c => TotalExpectedIn(runs, c))
  {
    assert BelowShare(runs, Findings.Correctness, m) && BelowShare(runs, Findings.Security, m)
        && BelowShare(runs, Findings.Reliability, m) && BelowShare(runs, Findings.Performance, m)
        && BelowShare(runs, Findings.Maintainability, m);
    SumScales(m + 1, TotalExpectedIn(runs, Findings.Correctness), TotalExpectedIn(runs, Findings.Security),
              TotalExpectedIn(runs, Findings.Reliability), TotalExpectedIn(runs, Findings.Performance),
              TotalExpectedIn(runs, Findings.Maintainability));
  }

  // ----- the release gate

  datatype Thresholds = Thresholds(precision: nat, recall: nat, categoryRecall: nat, noisyCleanCases: u32, duplicates: u32) {
    predicate Valid() { precision <= FULL && recall <= FULL && categoryRecall <= FULL }
  }

  datatype GateFailure = LowPrecision | LowRecall | LowCategoryRecall | CleanChangeNoise | DuplicateReports

  datatype Gate = Gate(passed: bool, score: CorpusScore, failures: seq<GateFailure>)

  /** A corpus that meets the release policy. */
  ghost predicate Meets(t: Thresholds, s: CorpusScore) {
    && t.precision <= s.precision && t.recall <= s.recall
    && (forall c :: c in s.categoryRecall ==> t.categoryRecall <= s.categoryRecall[c])
    && s.counts.noisyCleanCases <= t.noisyCleanCases && s.counts.duplicates <= t.duplicates
  }

  function Count(counts: map<Category, nat>, c: Category): nat {
    if c in counts then counts[c] else 0
  }

  /** `entry(category).or_default() += 1`. */
  function Increment(counts: map<Category, nat>, c: Category): map<Category, nat> {
    counts[c := Count(counts, c) + 1]
  }

  /** The loop over the expected defects of one case. */
  method CountExpected(defects: seq<Defect>, before: map<Category, nat>) returns (counts: map<Category, nat>)
    ensures forall c :: Count(counts, c) == Count(before, c) + ExpectedIn(defects, c)
    ensures (forall c :: c in before ==> before[c] > 0) ==> forall c :: c in counts ==> counts[c] > 0
  {
    counts := before;
    for i := 0 to |defects|
      invariant forall c :: Count(counts, c) == Count(before, c) + ExpectedIn(defects[..i], c)
      invariant (forall c :: c in before ==> before[c] > 0) ==> forall c :: c in counts ==> counts[c] > 0
    {
      assert defects[..i + 1][..i] == defects[..i];
      counts := Increment(counts, defects[i].category);
    }
    assert defects[..|defects|] == defects;
  }

  /** The loop over those expected defects of one case that were observed. */
  method CountFound(defects: seq<Defect>, observed: set<Defect>, before: map<Category, nat>) returns (counts: map<Category, nat>)
    ensures forall c :: Count(counts, c) == Count(before, c) + FoundIn(defects, observed, c)
  {
    counts := before;
    for i := 0 to |defects|
      invariant forall c :: Count(counts, c) == Count(before, c) + FoundIn(defects[..i], observed, c)
    {
      assert defects[..i + 1][..i] == defects[..i];
      if defects[i] in observed {
        counts := Increment(counts, defects[i].category);
      }
    }
    assert defects[..|defects|] == defects;
  }

  lemma {:induction false} TotalGrows(runs: seq<Run>, i: nat)
    requires i <= |runs|
    ensures Total(runs).Fits() ==> Total(runs[..i]).Fits()
  {
    if i == |runs| {
      assert runs[..i] == runs;
    } else {
      TotalGrows(runs[..|runs| - 1], i);
      assert runs[..|runs| - 1][..i] == runs[..i];
    }
  }

  /** What `evaluate_corpus` can evaluate. */
  ghost predicate Evaluable(runs: seq<Run>, t: Thresholds) {
    t.Valid() && |runs| <= U32_MAX && Countable(runs)
  }

  /** The category maps hold the counts of the runs. */
  ghost predicate Tallied(runs: seq<Run>, expected: map<Category, nat>, found: map<Category, nat>) {
    && (forall c :: Count(expected, c) == TotalExpectedIn(runs, c) && Count(found, c) == TotalFoundIn(runs, c))
    && forall c :: c in expected ==> expected[c] > 0
  }

  /** The category recalls, in category order. */
  method RecallByCategory(ghost runs: seq<Run>, expected: map<Category, nat>, found: map<Category, nat>)
    returns (recall: map<Category, nat>)
    requires Tallied(runs, expected, found)
    ensures recall == CategoryRecall(runs)
  {
    recall := map[];
    for i := 0 to |CATEGORIES|
      invariant forall c :: c in recall <==> c in CATEGORIES[..i] && c in expected
      invariant forall c :: c in recall ==> recall[c] == Ratio(Count(found, c), expected[c], true)
    {
      var c := CATEGORIES[i];
      assert CATEGORIES[..i + 1] == CATEGORIES[..i] + [c];
      if c in expected {
        recall := recall[c := Ratio(Count(found, c), expected[c], true)];
      }
    }
    assert CATEGORIES[..|CATEGORIES|] == CATEGORIES;
    forall c: Category ensures c in expected <==> TotalExpectedIn(runs, c) > 0 {
      assert Count(expected, c) == TotalExpectedIn(runs, c);
    }
  }

  /** Every case can be scored and the totals fit. */
  ghost predicate Countable(runs: seq<Run>) {
    (forall r :: r in runs ==> Scorable(r.testCase)) && Total(runs).Fits()
  }

  /** The loop variables after the cases `before`. */
  ghost predicate Scored(before: seq<Run>, total: Counts, expected: map<Category, nat>, found: map<Category, nat>) {
    Countable(before) && total == Total(before) && Tallied(before, expected, found)
  }

  lemma CountablePrefix(runs: seq<Run>, i: nat)
    requires i <= |runs| && Countable(runs)
    ensures Countable(runs[..i])
  {
    TotalGrows(runs, i);
  }

  lemma RunStops(runs: seq<Run>, i: nat)
    requires i < |runs| && !Countable(runs[..i + 1])
    ensures !Countable(runs)
  {
    if Countable(runs) {
      CountablePrefix(runs, i + 1);
    }
  }

  /** `e` is the reason why scoring stops behind the cases `before`. */
  ghost predicate StopsWith(before: seq<Run>, run: Run, e: EvaluationError) {
    || Refuses(run, e)
    || (e == CountOverflow && Scorable(run.testCase) && !Total(before + [run]).Fits())
  }

  /** Scoring the cases in turn stops at one of them with `e`; or they are too many. */
  ghost predicate CorpusRefused(runs: seq<Run>, e: EvaluationError) {
    if |runs| > U32_MAX then e == CountOverflow
    else exists i :: 0 <= i < |runs| && Countable(runs[..i]) && StopsWith(runs[..i], runs[i], e)
  }

  lemma {:induction false} OneMoreRun(before: seq<Run>, run: Run)
    ensures Total(before + [run]) == Total(before).Plus(CountsOf(run))
    ensures forall c :: TotalExpectedIn(before + [run], c) == TotalExpectedIn(before, c) + ExpectedIn(run.testCase.expected, c)
    ensures forall c :: TotalFoundIn(before + [run], c) == TotalFoundIn(before, c) + FoundIn(run.testCase.expected, SetOf(run.reports), c)
  {
    assert (before + [run])[..|before|] == before && (before + [run])[|before|] == run;
  }

  lemma {:induction false} CountableSnoc(before: seq<Run>, run: Run)
    requires Countable(before)
    ensures Countable(before + [run]) <==> Scorable(run.testCase) && Total(before).Plus(CountsOf(run)).Fits()
  {
    OneMoreRun(before, run);
    if Countable(before + [run]) {
      assert (before + [run])[|before|] == run;
    }
  }

  /** One turn of the loop over the cases. */
  method ScoreRun(ghost before: seq<Run>, run: Run, total: Counts, expected: map<Category, nat>, found: map<Category, nat>)
    returns (r: Result<(Counts, map<Category, nat>, map<Category, nat>), EvaluationError>)
    requires Scored(before, total, expected, found)
    ensures r.Success? <==> Countable(before + [run])
    ensures r.Success? ==> Scored(before + [run], r.value.0, r.value.1, r.value.2)
    ensures r.Failure? ==> StopsWith(before, run, r.error)
  {
    CountableSnoc(before, run);
    OneMoreRun(before, run);
    var score := Score(run);
    if score.Failure? {
      return Failure(score.error);
    }
    var sum := total.Plus(score.value);
    if !sum.Fits() {
      return Failure(CountOverflow);
    }
    var e := CountExpected(run.testCase.expected, expected);
    var f := CountFound(run.testCase.expected, SetOf(run.reports), found);
    return Success((sum, e, f));
  }

  /** `evaluate_corpus` up to the score: exact totals and recalls, or an error exactly when a case
      cannot be scored or a total does not fit. */
  method ScoreCorpus(runs: seq<Run>) returns (r: Result<CorpusScore, EvaluationError>)
    ensures r.Success? <==> |runs| <= U32_MAX && Countable(runs)
    ensures r.Success? ==> r.value == ScoreOf(runs)
    ensures r.Failure? ==> CorpusRefused(runs, r.error)
  {
    if |runs| > U32_MAX {
      return Failure(CountOverflow);
    }
    var total := Counts(0, 0, 0, 0, 0, 0, 0, 0);
    var expected: map<Category, nat>, found: map<Category, nat> := map[], map[];
    for i := 0 to |runs|
      invariant Scored(runs[..i], total, expected, found)
    {
      assert runs[..i + 1] == runs[..i] + [runs[i]];
      var step := ScoreRun(runs[..i], runs[i], total, expected, found);
      if step.Failure? {
        RunStops(runs, i);
        assert Countable(runs[..i]) && StopsWith(runs[..i], runs[i], step.error);
        return Failure(step.error);
      }
      total, expected, found := step.value.0, step.value.1, step.value.2;
    }
    assert runs[..|runs|] == runs;
    var recall := RecallByCategory(runs, expected, found);
    return Success(CorpusScore(
      |runs|, total, Ratio(total.truePositive, SaturatingSum(total.truePositive, total.falsePositive), total.expected == 0),
      Ratio(total.truePositive, total.expected, true), recall));
  }

  /** The thresholds a score misses, in the order they are checked. */
  function FailuresOf(t: Thresholds, s: CorpusScore): seq<GateFailure> {
    (if s.precision < t.precision then [LowPrecision] else [])
    + (if s.recall < t.recall then [LowRecall] else [])
    + (if exists c :: c in s.categoryRecall && s.categoryRecall[c] < t.categoryRecall then [LowCategoryRecall] else [])
    + (if s.counts.noisyCleanCases > t.noisyCleanCases then [CleanChangeNoise] else [])
    + (if s.counts.duplicates > t.duplicates then [DuplicateReports] else [])
  }

  lemma NoFailuresExactly(t: Thresholds, s: CorpusScore)
    ensures FailuresOf(t, s) == [] <==> Meets(t, s)
  {
    assert |FailuresOf(t, s)| == 0 <==> Meets(t, s);
  }

  /** `evaluate_corpus`: the gate passes exactly when the exact score meets every threshold. */
  method EvaluateCorpus(runs: seq<Run>, t: Thresholds) returns (r: Result<Gate, EvaluationError>)
    ensures r.Success? <==> Evaluable(runs, t)
    ensures r.Success? ==> r.value.score == ScoreOf(runs) && (r.value.passed <==> Meets(t, ScoreOf(runs)))
    ensures r.Success? ==> r.value.failures == FailuresOf(t, ScoreOf(runs))
    ensures r.Failure? ==>
      if t.precision > 10_000 || t.recall > 10_000 || t.categoryRecall > 10_000 then r.error == InvalidThreshold
      else CorpusRefused(runs, r.error)
  {
    if !t.Valid() {
      return Failure(InvalidThreshold);
    }
    var scored := ScoreCorpus(runs);
    if scored.Failure? {
      return Failure(scored.error);
    }
    var failures := FailuresOf(t, scored.value);
    NoFailuresExactly(t, scored.value);
    return Success(Gate(failures == [], scored.value, failures));
  }
}
