/** What the numbers of an evaluation mean, told from the expectations and reports themselves
    (crates/revoot-core/src/evaluation.rs, lines 122-313). */
module EvaluationLaws {
  import opened Words
  import opened Sorting
  import opened Evaluation
  import Findings

  // ----- one case, counted by positions

  ghost function Hits(r: Run): set<nat> {
    set i: nat | i < |r.testCase.expected| && r.testCase.expected[i] in r.reports
  }

  ghost function Misses(r: Run): set<nat> {
    set i: nat | i < |r.testCase.expected| && r.testCase.expected[i] !in r.reports
  }

  /** Reports of something nobody expects, each counted where it comes first. */
  ghost function FalseAlarms(r: Run): set<nat> {
    set i: nat | i < |r.reports| && r.reports[i] !in r.testCase.expected && r.reports[i] !in r.reports[..i]
  }

  /** Reports of something reported before. */
  ghost function Repetitions(r: Run): set<nat> {
    Again(r.reports)
  }

  ghost function FirstPlaces<T>(s: seq<T>, p: T -> bool): set<nat> {
    set i: nat | i < |s| && p(s[i]) && s[i] !in s[..i]
  }

  ghost function Satisfying<T>(s: seq<T>, p: T -> bool): set<T> {
    set x | x in s && p(x)
  }

  lemma SatisfyingSnoc<T>(front: seq<T>, last: T, p: T -> bool)
    ensures |Satisfying(front + [last], p)| == |Satisfying(front, p)| + if p(last) && last !in front then 1 else 0
  {
    var more := if p(last) && last !in front then {last} else {};
    assert Satisfying(front + [last], p) == Satisfying(front, p) + more;
  }

  /** Elements are as many as the places where they come first. */
  lemma {:induction false} PlacesAreElements<T>(s: seq<T>, p: T -> bool)
    ensures |FirstPlaces(s, p)| == |Satisfying(s, p)|
  {
    if s == [] {
      assert FirstPlaces(s, p) == {} && Satisfying(s, p) == {};
    } else {
      var n := |s| - 1;
      assert s == s[..n] + [s[n]];
      PlacesAreElements(s[..n], p);
      FirstPlacesSnoc(s[..n], s[n], p);
      SatisfyingSnoc(s[..n], s[n], p);
    }
  }

  lemma FirstPlacesSnoc<T>(front: seq<T>, last: T, p: T -> bool)
    ensures FirstPlaces(front + [last], p) == FirstPlaces(front, p) + if p(last) && last !in front then {|front|} else {}
    ensures |front| !in FirstPlaces(front, p)
  {
    var s := front + [last];
    forall i: nat | i < |front| ensures s[i] == front[i] && s[..i] == front[..i] { }
    assert s[..|front|] == front && s[|front|] == last;
  }

  ghost function Again<T>(s: seq<T>): set<nat> {
    set i: nat | i < |s| && s[i] in s[..i]
  }

  lemma AgainSnoc<T>(front: seq<T>, last: T)
    ensures Again(front + [last]) == Again(front) + if last in front then {|front|} else {}
    ensures |front| !in Again(front)
  {
    var s := front + [last];
    forall i: nat | i < |front| ensures s[i] == front[i] && s[..i] == front[..i] { }
    assert s[..|front|] == front && s[|front|] == last;
  }

  /** Every place is a first one or a repetition. */
  lemma {:induction false} FirstOrAgain<T>(s: seq<T>, always: T -> bool)
    requires forall x :: always(x)
    ensures |Again(s)| + |FirstPlaces(s, always)| == |s|
  {
    if s == [] {
      assert Again(s) == {} && FirstPlaces(s, always) == {};
    } else {
      var n := |s| - 1;
      assert s == s[..n] + [s[n]];
      FirstOrAgain(s[..n], always);
      AgainSnoc(s[..n], s[n]);
      FirstPlacesSnoc(s[..n], s[n], always);
    }
  }

  ghost function PlacesWhere<T>(s: seq<T>, q: T -> bool): set<nat> {
    set i: nat | i < |s| && q(s[i])
  }

  lemma {:induction false} PlacesSnoc<T>(front: seq<T>, last: T, q: T -> bool)
    ensures |PlacesWhere(front + [last], q)| == |PlacesWhere(front, q)| + if q(last) then 1 else 0
  {
    var s := front + [last];
    forall i: nat | i < |front| ensures s[i] == front[i] { }
    assert PlacesWhere(s, q) == PlacesWhere(front, q) + if q(last) then {|front|} else {};
  }

  lemma DistinctPlaces<T>(s: seq<T>, p: T -> bool)
    requires Distinct(s)
    ensures FirstPlaces(s, p) == set i: nat | i < |s| && p(s[i])
  {
    forall i: nat | i < |s| ensures s[i] !in s[..i] { }
  }

  /** The counts of a case are what their names say. */
  lemma {:induction false} CountsAreTold(r: Run)
    requires Distinct(r.testCase.expected)
    ensures var c := CountsOf(r);
      && c.expected == |r.testCase.expected| && c.reported == |r.reports|
      && c.truePositive == |Hits(r)| && c.falseNegative == |Misses(r)|
      && c.falsePositive == |FalseAlarms(r)| && c.duplicates == |Repetitions(r)|
      && c.cleanCases == (if r.testCase.clean then 1 else 0)
      && c.noisyCleanCases == (if r.testCase.clean && |r.reports| > 0 then 1 else 0)
  {
    SetOfSize(r.testCase.expected);
    FoundAndMissed(r);
    FalseAndRepeated(r);
  }

  lemma {:induction false} FalseAndRepeated(r: Run)
    ensures |FalseAlarms(r)| == |SetOf(r.reports) - SetOf(r.testCase.expected)|
    ensures |Repetitions(r)| == |r.reports| - |SetOf(r.reports)|
  {
    var expected, reports := r.testCase.expected, r.reports;
    var foreign := x => x !in expected;
    PlacesAreElements(reports, foreign);
    assert FalseAlarms(r) == FirstPlaces(reports, foreign);
    assert Satisfying(reports, foreign) == SetOf(reports) - SetOf(expected);
    EveryPlace(reports);
  }

  lemma {:induction false} EveryPlace<T>(s: seq<T>)
    ensures |Again(s)| == |s| - |SetOf(s)|
  {
    var always: T -> bool := x => true;
    PlacesAreElements(s, always);
    assert Satisfying(s, always) == SetOf(s);
    FirstOrAgain(s, always);
  }

  lemma {:induction false} FoundAndMissed(r: Run)
    requires Distinct(r.testCase.expected)
    ensures |Hits(r)| == |SetOf(r.testCase.expected) * SetOf(r.reports)|
    ensures |Misses(r)| == |SetOf(r.testCase.expected) - SetOf(r.reports)|
  {
    var expected, reports := r.testCase.expected, r.reports;
    var found, missed := x => x in reports, x => x !in reports;
    PlacesAreElements(expected, found);
    PlacesAreElements(expected, missed);
    DistinctPlaces(expected, found);
    DistinctPlaces(expected, missed);
    assert Hits(r) == FirstPlaces(expected, found) && Misses(r) == FirstPlaces(expected, missed);
    assert Satisfying(expected, found) == SetOf(expected) * SetOf(reports);
    assert Satisfying(expected, missed) == SetOf(expected) - SetOf(reports);
  }

  // ----- the corpus

  /** One more case adds its counts to the totals. */
  lemma {:induction false} TotalsAreTold(runs: seq<Run>, r: Run)
    requires Distinct(r.testCase.expected)
    ensures Total([]) == Counts(0, 0, 0, 0, 0, 0, 0, 0)
    ensures var t, u := Total(runs), Total(runs + [r]);
      && u.expected == t.expected + |r.testCase.expected| && u.reported == t.reported + |r.reports|
      && u.truePositive == t.truePositive + |Hits(r)| && u.falseNegative == t.falseNegative + |Misses(r)|
      && u.falsePositive == t.falsePositive + |FalseAlarms(r)| && u.duplicates == t.duplicates + |Repetitions(r)|
      && u.cleanCases == t.cleanCases + (if r.testCase.clean then 1 else 0)
      && u.noisyCleanCases == t.noisyCleanCases + (if r.testCase.clean && |r.reports| > 0 then 1 else 0)
  {
    assert (runs + [r])[..|runs|] == runs;
    CountsAreTold(r);
  }

  /** `points` are the ten-thousandths of `whole` that `part` makes up, rounded down. */
  ghost predicate BasisPoints(points: nat, part: nat, whole: nat) {
    forall m: nat :: m <= points <==> m * whole <= part * 10_000
  }

  lemma RatioIsTold(part: nat, whole: nat, emptyIsPerfect: bool)
    requires part <= whole
    ensures whole > 0 ==> BasisPoints(Ratio(part, whole, emptyIsPerfect), part, whole)
    ensures whole == 0 ==> Ratio(part, whole, emptyIsPerfect) == if emptyIsPerfect then 10_000 else 0
  {
    if whole > 0 {
      forall m: nat ensures m <= Ratio(part, whole, emptyIsPerfect) <==> m * whole <= part * 10_000 {
        RatioAtLeast(part, whole, m);
      }
    }
  }

  ghost predicate Countables(runs: seq<Run>) {
    (forall r :: r in runs ==> Distinct(r.testCase.expected)) && Total(runs).Fits()
  }

  /** Precision is the share of the true among the different reports, recall the share of the found among the
      expected defects; without reports precision is full only if nothing is expected. */
  lemma {:induction false} ScoresAreTold(runs: seq<Run>)
    requires Countables(runs)
    ensures var s := ScoreOf(runs);
      var t := s.counts;
      && s.cases == |runs| && t == Total(runs)
      && (t.truePositive + t.falsePositive > 0 ==> BasisPoints(s.precision, t.truePositive, t.truePositive + t.falsePositive))
      && (t.truePositive + t.falsePositive == 0 ==> s.precision == if t.expected == 0 then 10_000 else 0)
      && (t.expected > 0 ==> BasisPoints(s.recall, t.truePositive, t.expected))
      && (t.expected == 0 ==> s.recall == 10_000)
  {
    CorpusBalances(runs);
    var t := Total(runs);
    RatioIsTold(t.truePositive, t.truePositive + t.falsePositive, t.expected == 0);
    RatioIsTold(t.truePositive, t.expected, true);
  }

  /** The recall of every category in which something is expected. */
  lemma {:induction false} CategoryRecallIsTold(runs: seq<Run>, c: Category)
    requires Countables(runs)
    ensures c in ScoreOf(runs).categoryRecall <==> TotalExpectedIn(runs, c) > 0
    ensures c in ScoreOf(runs).categoryRecall ==>
      BasisPoints(ScoreOf(runs).categoryRecall[c], TotalFoundIn(runs, c), TotalExpectedIn(runs, c))
  {
    EveryCategory(c);
    CategoriesAddUp(runs);
    RatioIsTold(TotalFoundIn(runs, c), TotalExpectedIn(runs, c), true);
  }

  ghost function ExpectedPlaces(r: Run, c: Category): set<nat> {
    set i: nat | i < |r.testCase.expected| && r.testCase.expected[i].category == c
  }

  function Of(c: Category): Defect -> bool {
    (d: Defect) => d.category == c
  }

  function FoundOf(observed: set<Defect>, c: Category): Defect -> bool {
    (d: Defect) => d.category == c && d in observed
  }

  /** One more case adds its expected and its found defects to each category. */
  lemma {:induction false} CategoriesAreTold(runs: seq<Run>, r: Run, c: Category)
    ensures TotalExpectedIn([], c) == 0 && TotalFoundIn([], c) == 0
    ensures TotalExpectedIn(runs + [r], c) == TotalExpectedIn(runs, c) + |ExpectedPlaces(r, c)|
    ensures TotalFoundIn(runs + [r], c) == TotalFoundIn(runs, c) + |ExpectedPlaces(r, c) * Hits(r)|
  {
    assert (runs + [r])[..|runs|] == runs;
    var observed := SetOf(r.reports);
    ExpectedInPlaces(r.testCase.expected, c);
    FoundInPlaces(r.testCase.expected, observed, c);
    assert ExpectedPlaces(r, c) == PlacesWhere(r.testCase.expected, Of(c));
    assert ExpectedPlaces(r, c) * Hits(r) == PlacesWhere(r.testCase.expected, FoundOf(observed, c));
  }

  lemma {:induction false} ExpectedInPlaces(expected: seq<Defect>, c: Category)
    ensures ExpectedIn(expected, c) == |PlacesWhere(expected, Of(c))|
  {
    if expected == [] {
      assert PlacesWhere(expected, Of(c)) == {};
    } else {
      var n := |expected| - 1;
      assert expected == expected[..n] + [expected[n]];
      ExpectedInPlaces(expected[..n], c);
      PlacesSnoc(expected[..n], expected[n], Of(c));
    }
  }

  lemma {:induction false} FoundInPlaces(expected: seq<Defect>, observed: set<Defect>, c: Category)
    ensures FoundIn(expected, observed, c) == |PlacesWhere(expected, FoundOf(observed, c))|
  {
    if expected == [] {
      assert PlacesWhere(expected, FoundOf(observed, c)) == {};
    } else {
      var n := |expected| - 1;
      assert expected == expected[..n] + [expected[n]];
      FoundInPlaces(expected[..n], observed, c);
      PlacesSnoc(expected[..n], expected[n], FoundOf(observed, c));
    }
  }

  // ----- the gate

  predicate Earlier(a: GateFailure, b: GateFailure) {
    match b
    case LowPrecision => false
    case LowRecall => a.LowPrecision?
    case LowCategoryRecall => a.LowPrecision? || a.LowRecall?
    case CleanChangeNoise => a.LowPrecision? || a.LowRecall? || a.LowCategoryRecall?
    case DuplicateReports => !a.DuplicateReports?
  }

  ghost predicate InOrder(fs: seq<GateFailure>) {
    forall i, j :: 0 <= i < j < |fs| ==> Earlier(fs[i], fs[j])
  }

  function Only(b: bool, f: GateFailure): seq<GateFailure> {
    if b then [f] else []
  }

  lemma Extended(fs: seq<GateFailure>, b: bool, f: GateFailure, longer: seq<GateFailure>)
    requires InOrder(fs) && longer == fs + Only(b, f)
    requires forall g :: g in fs ==> Earlier(g, f)
    ensures InOrder(longer) && forall g :: g in longer <==> g in fs || (b && g == f)
  {
    forall g ensures g in longer <==> g in fs || (b && g == f) { }
  }

  ghost predicate LowSomewhere(t: Thresholds, s: CorpusScore) {
    exists c :: c in s.categoryRecall && s.categoryRecall[c] < t.categoryRecall
  }

  /** The listed failures, each behind its condition. */
  ghost function Listed(precision: bool, recall: bool, category: bool, noise: bool, repeats: bool): seq<GateFailure> {
    Only(precision, LowPrecision) + Only(recall, LowRecall) + Only(category, LowCategoryRecall)
    + Only(noise, CleanChangeNoise) + Only(repeats, DuplicateReports)
  }

  lemma {:induction false} ListedInOrder(precision: bool, recall: bool, category: bool, noise: bool, repeats: bool)
    ensures var fs := Listed(precision, recall, category, noise, repeats);
      && InOrder(fs)
      && (LowPrecision in fs <==> precision) && (LowRecall in fs <==> recall) && (LowCategoryRecall in fs <==> category)
      && (CleanChangeNoise in fs <==> noise) && (DuplicateReports in fs <==> repeats)
  {
    var a := Only(precision, LowPrecision);
    var b := a + Only(recall, LowRecall);
    var c := b + Only(category, LowCategoryRecall);
    var d := c + Only(noise, CleanChangeNoise);
    Extended(a, recall, LowRecall, b);
    Extended(b, category, LowCategoryRecall, c);
    Extended(c, noise, CleanChangeNoise, d);
    Extended(d, repeats, DuplicateReports, d + Only(repeats, DuplicateReports));
  }

  /** Each failure is reported exactly when its threshold is missed, and they come in a fixed order. */
  lemma {:induction false} FailuresAreTold(t: Thresholds, s: CorpusScore)
    ensures var fs := FailuresOf(t, s);
      && (LowPrecision in fs <==> s.precision < t.precision)
      && (LowRecall in fs <==> s.recall < t.recall)
      && (LowCategoryRecall in fs <==> LowSomewhere(t, s))
      && (CleanChangeNoise in fs <==> s.counts.noisyCleanCases > t.noisyCleanCases)
      && (DuplicateReports in fs <==> s.counts.duplicates > t.duplicates)
      && InOrder(fs)
  {
    var noisy, repeated := s.counts.noisyCleanCases > t.noisyCleanCases, s.counts.duplicates > t.duplicates;
    ListedInOrder(s.precision < t.precision, s.recall < t.recall, LowSomewhere(t, s), noisy, repeated);
    assert FailuresOf(t, s) == Listed(s.precision < t.precision, s.recall < t.recall, LowSomewhere(t, s), noisy, repeated);
  }
}
