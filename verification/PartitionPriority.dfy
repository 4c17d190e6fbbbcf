/** Which files get the room there is: review value decides, and a less valuable file never displaces a more
    valuable one (crates/revoot-core/src/partition.rs, lines 900-917 and 966-1066). */
module PartitionPriorities {
  import opened Wrappers
  import opened Words
  import opened Sorting
  import opened Sequences
  import opened ChangedPaths
  import opened PartitionInputs
  import opened PartitionPacking
  import opened PartitionPlans
  import opened PartitionOutcomes
  import Strings

  // ----- the order in which files are packed

  predicate AboveTier(a: Tier, b: Tier) {
    (a.High? && !b.High?) || (a.Standard? && b.Low?)
  }

  /** By old path, then by new path. */
  predicate PathBefore(a: ChangedPath, b: ChangedPath) {
    Strings.Less(a.oldPath, b.oldPath) || (a.oldPath == b.oldPath && Strings.Less(a.newPath, b.newPath))
  }

  /** Higher tier first, then higher score, then fewer bytes, then path. */
  predicate PackedBefore(a: UnitFile, b: UnitFile) {
    || AboveTier(a.value.tier, b.value.tier)
    || (a.value.tier == b.value.tier &&
          (|| a.value.score > b.value.score
           || (a.value.score == b.value.score &&
                 (a.bytes < b.bytes || (a.bytes == b.bytes && PathBefore(a.path, b.path))))))
  }

  ghost predicate InReviewOrder(s: seq<UnitFile>) {
    forall i, j :: 0 <= i < j < |s| ==> PackedBefore(s[i], s[j])
  }

  ghost predicate DistinctPaths(s: seq<UnitFile>) {
    Distinct(Map(NewPath, s))
  }

  lemma PackedBeforeIsPreferred(a: UnitFile, b: UnitFile)
    requires a.path.newPath != b.path.newPath
    ensures PackedBefore(a, b) <==> Preferred(a, b)
  {
    Strings.LessIrreflexive(a.path.oldPath);
  }

  lemma PreferredOrder()
    ensures StrictWeak(Preferred)
  {
    PathOrder();
  }

  lemma FilesUntied(s: seq<UnitFile>)
    requires DistinctPaths(s)
    ensures Untied(Preferred, s) && Distinct(s)
    ensures forall x, y :: x in s && y in s && x != y ==> x.path.newPath != y.path.newPath
  {
    PathOrder();
    var paths := Map(NewPath, s);
    forall x, y | x in s && y in s && x != y ensures x.path.newPath != y.path.newPath {
      var i :| 0 <= i < |s| && s[i] == x;
      var j :| 0 <= j < |s| && s[j] == y;
      assert paths[i] == x.path.newPath && paths[j] == y.path.newPath;
    }
    forall i, j | 0 <= i < j < |s| ensures s[i] != s[j] {
      assert paths[i] != paths[j];
    }
  }

  /** Sorting by the program's comparison puts files with different paths in review order. */
  lemma {:induction false} SortedIsInReviewOrder(s: seq<UnitFile>)
    requires DistinctPaths(s)
    ensures InReviewOrder(SortBy(Preferred, s)) && multiset(SortBy(Preferred, s)) == multiset(s)
  {
    var sorted := SortBy(Preferred, s);
    FilesUntied(s);
    PreferredOrder();
    SortByStrict(Preferred, s);
    SameElements(s, sorted);
    forall i, j | 0 <= i < j < |sorted| ensures PackedBefore(sorted[i], sorted[j]) {
      assert Preferred(sorted[i], sorted[j]) && !Preferred(sorted[i], sorted[i]);
      assert sorted[i] in s && sorted[j] in s;
      PackedBeforeIsPreferred(sorted[i], sorted[j]);
    }
  }

  /** There is only one review order of given files. */
  lemma {:induction false} ReviewOrderIsSorted(s: seq<UnitFile>, order: seq<UnitFile>)
    requires DistinctPaths(s) && multiset(order) == multiset(s) && InReviewOrder(order)
    ensures order == SortBy(Preferred, s)
  {
    var sorted := SortBy(Preferred, s);
    FilesUntied(s);
    PreferredOrder();
    SortByStrict(Preferred, s);
    SameElements(s, sorted);
    SameElements(s, order);
    DistinctPermutation(s, order);
    forall i, j | 0 <= i < j < |order| ensures Preferred(order[i], order[j]) {
      assert order[i] in s && order[j] in s && order[i] != order[j];
      PackedBeforeIsPreferred(order[i], order[j]);
    }
    StrictlySortedUnique(Preferred, order, sorted);
  }

  // ----- what comes later does not matter

  lemma {:induction false} OneMoreFile(files: seq<UnitFile>, a: seq<Omitted>, l: Limits, f: UnitFile)
    requires l.Valid() && files != [] && files[|files| - 1] != f
    ensures f in Flatten(PackAll(files, a, l).bins) <==> f in Flatten(PackAll(files[..|files| - 1], a, l).bins)
  {
    var n := |files| - 1;
    StepMembers(PackAll(files[..n], a, l), files[n], l, f);
  }

  /** Whether a file is packed is decided when its turn comes. */
  lemma {:induction false} LaterFilesDoNotMatter(files: seq<UnitFile>, a: seq<Omitted>, l: Limits, k: nat, f: UnitFile)
    requires l.Valid() && k <= |files| && forall i :: k <= i < |files| ==> files[i] != f
    ensures f in Flatten(PackAll(files, a, l).bins) <==> f in Flatten(PackAll(files[..k], a, l).bins)
    decreases |files|
  {
    if k == |files| {
      assert files[..k] == files;
    } else {
      var n := |files| - 1;
      assert files[..n][..k] == files[..k];
      OneMoreFile(files, a, l, f);
      LaterFilesDoNotMatter(files[..n], a, l, k, f);
    }
  }

  lemma NotLater(files: seq<UnitFile>, k: nat, f: UnitFile)
    requires Distinct(files) && k <= |files| && f in files[..k]
    ensures forall i :: k <= i < |files| ==> files[i] != f
  {
    var j :| 0 <= j < k && files[..k][j] == f;
    assert files[j] == f;
  }

  lemma {:induction false} OmissionsDoNotMatter(files: seq<UnitFile>, a: seq<Omitted>, b: seq<Omitted>, l: Limits)
    ensures PackAll(files, a, l).(omitted := []) == PackAll(files, b, l).(omitted := [])
  {
    if files != [] {
      OmissionsDoNotMatter(files[..|files| - 1], a, b, l);
    }
  }

  /** Keeping what comes first is cutting off what comes later. */
  lemma {:induction false} FilterIsPrefix<T>(p: T -> bool, s: seq<T>) returns (k: nat)
    requires forall i, j :: 0 <= i < j < |s| && p(s[j]) ==> p(s[i])
    ensures k <= |s| && Filter(p, s) == s[..k]
  {
    if s == [] {
      k := 0;
    } else if p(s[0]) {
      forall i, j | 0 <= i < j < |s[1..]| && p(s[1..][j]) ensures p(s[1..][i]) {
        assert s[i + 1] == s[1..][i] && s[j + 1] == s[1..][j];
      }
      var m := FilterIsPrefix(p, s[1..]);
      k := m + 1;
      assert s[..k] == [s[0]] + s[1..][..m];
    } else {
      forall x | x in s ensures !p(x) {
        var j :| 0 <= j < |s| && s[j] == x;
      }
      FilterNone(p, s);
      k := 0;
    }
  }

  // ----- less valuable files

  /** At least this tier; within the tier at least this score; within the score at most so many bytes. */
  predicate AtLeast(f: UnitFile, tier: Tier, score: nat, bytes: nat) {
    || AboveTier(f.value.tier, tier)
    || (f.value.tier == tier && (f.value.score > score || (f.value.score == score && f.bytes <= bytes)))
  }

  function Cut(tier: Tier, score: nat, bytes: nat): UnitFile -> bool {
    (f: UnitFile) => AtLeast(f, tier, score, bytes)
  }

  /** Packing the more valuable files alone packs the same ones of them. */
  lemma {:induction false} PackingKeepsPriorities(s: seq<UnitFile>, order: seq<UnitFile>, a: seq<Omitted>, b: seq<Omitted>, l: Limits,
                               tier: Tier, score: nat, bytes: nat, f: UnitFile)
    requires l.Valid() && DistinctPaths(s) && f in s && AtLeast(f, tier, score, bytes)
    requires multiset(order) == multiset(Filter(Cut(tier, score, bytes), s)) && InReviewOrder(order)
    ensures f in Flatten(PackAll(SortBy(Preferred, s), a, l).bins) <==> f in Flatten(PackAll(order, b, l).bins)
  {
    var cut, sorted := Cut(tier, score, bytes), SortBy(Preferred, s);
    SortedIsInReviewOrder(s);
    SameElements(s, sorted);
    forall i, j | 0 <= i < j < |sorted| && cut(sorted[j]) ensures cut(sorted[i]) {
      assert PackedBefore(sorted[i], sorted[j]);
    }
    var k := FilterIsPrefix(cut, sorted);
    FilterPermutation(cut, s, sorted);
    FilterKeepsDistinct(NewPath, cut, s);
    PrefixInReviewOrder(sorted, k);
    ReviewOrderIsSorted(Filter(cut, s), order);
    ReviewOrderIsSorted(Filter(cut, s), sorted[..k]);
    FilterMember(cut, sorted, f);
    FilesUntied(s);
    DistinctPermutation(s, sorted);
    NotLater(sorted, k, f);
    LaterFilesDoNotMatter(sorted, a, l, k, f);
    OmissionsDoNotMatter(order, a, b, l);
  }

  lemma PrefixInReviewOrder(s: seq<UnitFile>, k: nat)
    requires InReviewOrder(s) && k <= |s|
    ensures InReviewOrder(s[..k])
  {
  }

  /** Admitted files are separated. */
  lemma AdmittedDistinct(sensitive: Sensitivity, policy: Policy, l: Limits, files: seq<FileInput>)
    requires Buildable(policy, l, files)
    ensures DistinctPaths(Admitted(sensitive, policy, files))
  {
    var s := SortBy(ByInputPath, files);
    InputsPermuted(files, s);
    var p := PrepareAll(sensitive, Normalized(policy), s);
    PreparationTallies(sensitive, Normalized(policy), s);
    var outcomes := Map(PathOf, p.included) + Map(OmittedPath, p.omitted);
    NewPathsPermuted(Map(InputPath, s), outcomes);
    OutcomesApart(p.included, p.omitted, outcomes);
    DistinctParts(Map(NewPath, p.included), Map(OmittedNewPath, p.omitted));
  }

  /** The files of a plan are the packed ones. */
  lemma InPlanIsPacked(h: Hashes, sensitive: Sensitivity, snapshot: Snapshot, policy: Policy, l: Limits, files: seq<FileInput>, f: UnitFile)
    returns (omitted: seq<Omitted>)
    ensures f in AllFiles(Body(h, sensitive, snapshot, policy, l, files).units)
      <==> f in Flatten(PackAll(SortBy(Preferred, Admitted(sensitive, policy, files)), omitted, l).bins)
  {
    omitted := PrepareAll(sensitive, Normalized(policy), SortBy(ByInputPath, files)).omitted;
    PlanHoldsPacking(h, sensitive, snapshot, policy, l, files);
    SameElements(AllFiles(Body(h, sensitive, snapshot, policy, l, files).units), Flatten(Pack(sensitive, Normalized(policy), l, files).bins));
  }

  /** The admitted files of a plan are packed in review order: an admitted file of at least some value is in the
      plan if and only if it is packed when the admitted files of at least that value, in review order, are all
      there is. */
  lemma {:induction false} ReviewValueDecides(h: Hashes, sensitive: Sensitivity, snapshot: Snapshot, policy: Policy, l: Limits, files: seq<FileInput>,
                           order: seq<UnitFile>, tier: Tier, score: nat, bytes: nat, f: UnitFile)
    requires Buildable(policy, l, files)
    requires f in Admitted(sensitive, policy, files) && AtLeast(f, tier, score, bytes)
    requires InReviewOrder(order)
    requires multiset(order) == multiset(Filter(Cut(tier, score, bytes), Admitted(sensitive, policy, files)))
    ensures f in AllFiles(Body(h, sensitive, snapshot, policy, l, files).units) <==> f in Flatten(PackAll(order, [], l).bins)
  {
    var omitted := InPlanIsPacked(h, sensitive, snapshot, policy, l, files, f);
    AdmittedDistinct(sensitive, policy, l, files);
    PackingKeepsPriorities(Admitted(sensitive, policy, files), order, omitted, [], l, tier, score, bytes, f);
  }

  /** A less valuable file never displaces a more valuable one: if leaving out inputs leaves out exactly the
      admitted files below some value, the plan without them holds the same ones of the others. */
  lemma LessValuableNeverDisplace(h: Hashes, sensitive: Sensitivity, snapshot: Snapshot, policy: Policy, l: Limits,
                                  files: seq<FileInput>, rest: seq<FileInput>, tier: Tier, score: nat, bytes: nat, f: UnitFile)
    requires Buildable(policy, l, files) && Buildable(policy, l, rest)
    requires multiset(Admitted(sensitive, policy, rest)) == multiset(Filter(Cut(tier, score, bytes), Admitted(sensitive, policy, files)))
    requires f in Admitted(sensitive, policy, files) && AtLeast(f, tier, score, bytes)
    ensures f in AllFiles(Body(h, sensitive, snapshot, policy, l, files).units)
      <==> f in AllFiles(Body(h, sensitive, snapshot, policy, l, rest).units)
  {
    var all, some := Admitted(sensitive, policy, files), Admitted(sensitive, policy, rest);
    AdmittedDistinct(sensitive, policy, l, rest);
    AdmittedDistinct(sensitive, policy, l, files);
    SortedIsInReviewOrder(some);
    var a := InPlanIsPacked(h, sensitive, snapshot, policy, l, files, f);
    var b := InPlanIsPacked(h, sensitive, snapshot, policy, l, rest, f);
    PackingKeepsPriorities(all, SortBy(Preferred, some), a, b, l, tier, score, bytes, f);
  }

  // ----- inputs with anchors of their own

  /** No two files share an anchor. */
  ghost predicate OwnAnchors(files: seq<FileInput>) {
    forall f, g :: f in files && g in files && f != g ==> SetOf(f.anchors) * SetOf(g.anchors) == {}
  }

  /** What becomes of a file on its own. */
  function Alone(sensitive: Sensitivity, policy: Policy, f: FileInput): Result<UnitFile, Omitted> {
    PrepareFile(sensitive, f, policy, {}).0
  }

  /** Anchors of other files do not matter. */
  lemma AdmittedRegardless(f: FileInput, seen: set<string>)
    requires SetOf(f.anchors) * seen == {}
    ensures Admit(f, seen).0 == Admit(f, {}).0 && Admit(f, seen).1 <= seen + SetOf(f.anchors)
  {
    var anchors := SortBy(Strings.Less, f.anchors);
    SameElements(f.anchors, anchors);
    assert SetOf(anchors) == SetOf(f.anchors) && SetOf(anchors) * {} == {};
  }

  lemma PreparedAlone(sensitive: Sensitivity, policy: Policy, f: FileInput, seen: set<string>)
    requires SetOf(f.anchors) * seen == {}
    ensures PrepareFile(sensitive, f, policy, seen).0 == Alone(sensitive, policy, f)
    ensures PrepareFile(sensitive, f, policy, seen).1 <= seen + SetOf(f.anchors)
  {
    AdmittedRegardless(f, seen);
  }

  function AloneOf(sensitive: Sensitivity, policy: Policy): FileInput -> Result<UnitFile, Omitted> {
    (f: FileInput) => Alone(sensitive, policy, f)
  }

  ghost function AllAnchors(files: seq<FileInput>): set<string> {
    set f, a | f in files && a in f.anchors :: a
  }

  lemma OwnAnchorsPrefix(files: seq<FileInput>)
    requires OwnAnchors(files) && Distinct(files) && files != []
    ensures var n := |files| - 1;
      OwnAnchors(files[..n]) && Distinct(files[..n]) && SetOf(files[n].anchors) * AllAnchors(files[..n]) == {}
      && AllAnchors(files) == AllAnchors(files[..n]) + SetOf(files[n].anchors)
  {
    var n := |files| - 1;
    assert files == files[..n] + [files[n]];
    forall f | f in files[..n] ensures f in files && f != files[n] {
      var i :| 0 <= i < n && files[..n][i] == f;
    }
    forall a | a in AllAnchors(files[..n]) ensures a !in SetOf(files[n].anchors) {
      var f :| f in files[..n] && a in f.anchors;
      assert a !in SetOf(f.anchors) * SetOf(files[n].anchors);
    }
  }

  /** With anchors of their own, files are admitted each on its own. */
  lemma {:induction false} AdmittedAlone(sensitive: Sensitivity, policy: Policy, files: seq<FileInput>)
    requires OwnAnchors(files) && Distinct(files)
    ensures PrepareAll(sensitive, policy, files).included == Successes(AloneOf(sensitive, policy), files)
    ensures PrepareAll(sensitive, policy, files).seen <= AllAnchors(files)
  {
    if files != [] {
      var n := |files| - 1;
      OwnAnchorsPrefix(files);
      AdmittedAlone(sensitive, policy, files[..n]);
      PreparedAlone(sensitive, policy, files[n], PrepareAll(sensitive, policy, files[..n]).seen);
    }
  }

  // ----- leaving out what succeeds below a cut

  function Successes<A, B, E>(g: A -> Result<B, E>, s: seq<A>): seq<B> {
    if s == [] then []
    else
      var n := |s| - 1;
      var last := g(s[n]);
      Successes(g, s[..n]) + if last.Success? then [last.value] else []
  }

  /** What does not succeed anyway, or passes. */
  function Kept<A, B, E>(g: A -> Result<B, E>, p: B -> bool): A -> bool {
    (a: A) => g(a).Failure? || p(g(a).value)
  }

  lemma {:induction false} SuccessesSnoc<A, B, E>(g: A -> Result<B, E>, s: seq<A>, a: A)
    ensures Successes(g, s + [a]) == Successes(g, s) + if g(a).Success? then [g(a).value] else []
  {
    assert (s + [a])[..|s|] == s;
  }

  lemma {:induction false} KeptSuccesses<A, B, E>(g: A -> Result<B, E>, p: B -> bool, s: seq<A>)
    ensures Successes(g, Filter(Kept(g, p), s)) == Filter(p, Successes(g, s))
  {
    if s != [] {
      var n := |s| - 1;
      var front, last, kept := s[..n], s[n], Filter(Kept(g, p), s[..n]);
      assert s == front + [last];
      KeptSuccesses(g, p, front);
      FilterSnoc(Kept(g, p), front, last);
      SuccessesSnoc(g, front, last);
      SuccessesSnoc(g, kept, last);
      if g(last).Success? {
        FilterSnoc(p, Successes(g, front), g(last).value);
      } else {
        assert Successes(g, front) + [] == Successes(g, front) && Successes(g, kept) + [] == Successes(g, kept);
      }
      assert kept + [] == kept;
    }
  }

  /** Inputs that are not admitted anyway, or whose file is valuable enough. */
  function Stays(sensitive: Sensitivity, policy: Policy, tier: Tier, score: nat, bytes: nat): FileInput -> bool {
    Kept(AloneOf(sensitive, policy), Cut(tier, score, bytes))
  }

  lemma {:induction false} FilteredInputs(q: FileInput -> bool, files: seq<FileInput>)
    requires ValidInputs(files)
    ensures ValidInputs(Filter(q, files)) && |Filter(q, files)| <= |files|
  {
    var key := (f: FileInput) => f.path.newPath;
    forall s: seq<FileInput> ensures Map(key, s) == Map(NewPathOf, Map(InputPath, s)) { }
    FilterKeepsDistinct(key, q, files);
    forall f | f in Filter(q, files) ensures f in files {
      FilterMember(q, files, f);
    }
  }

  lemma InputsDistinct(files: seq<FileInput>)
    requires ValidInputs(files)
    ensures Distinct(files)
  {
    var paths := Map(NewPathOf, Map(InputPath, files));
    forall i, j | 0 <= i < j < |files| ensures files[i] != files[j] {
      assert paths[i] != paths[j];
    }
  }

  lemma {:induction false} AdmittedIsAlone(sensitive: Sensitivity, policy: Policy, files: seq<FileInput>)
    requires ValidInputs(files) && OwnAnchors(files)
    ensures Admitted(sensitive, policy, files) == Successes(AloneOf(sensitive, Normalized(policy)), SortBy(ByInputPath, files))
  {
    var sorted := SortBy(ByInputPath, files);
    InputsPermuted(files, sorted);
    SameElements(files, sorted);
    InputsDistinct(sorted);
    AdmittedAlone(sensitive, Normalized(policy), sorted);
  }

  lemma {:induction false} OwnAnchorsFiltered(q: FileInput -> bool, files: seq<FileInput>)
    requires OwnAnchors(files)
    ensures OwnAnchors(Filter(q, files))
  {
    forall f, g | f in Filter(q, files) && g in Filter(q, files) && f != g ensures SetOf(f.anchors) * SetOf(g.anchors) == {} {
      FilterMember(q, files, f);
      FilterMember(q, files, g);
    }
  }

  /** With anchors of their own, leaving out the inputs below some value leaves out exactly their files. */
  lemma {:induction false} LeavingOutLessValuable(sensitive: Sensitivity, policy: Policy, l: Limits, files: seq<FileInput>,
                                                  tier: Tier, score: nat, bytes: nat)
    requires Buildable(policy, l, files) && OwnAnchors(files)
    ensures var rest := Filter(Stays(sensitive, Normalized(policy), tier, score, bytes), files);
      && Buildable(policy, l, rest)
      && Admitted(sensitive, policy, rest) == Filter(Cut(tier, score, bytes), Admitted(sensitive, policy, files))
  {
    var stays := Stays(sensitive, Normalized(policy), tier, score, bytes);
    FilteredInputs(stays, files);
    OwnAnchorsFiltered(stays, files);
    AdmittedIsAlone(sensitive, policy, files);
    AdmittedIsAlone(sensitive, policy, Filter(stays, files));
    InputsUntied(files);
    ByPathOrder();
    SortFiltered(ByInputPath, stays, files);
    KeptSuccesses(AloneOf(sensitive, Normalized(policy)), Cut(tier, score, bytes), SortBy(ByInputPath, files));
  }

  /** So, for files with anchors of their own, an admitted file is in the plan if and only if it is in the plan of
      the input without the less valuable admitted files: those of a lower tier, of a lower score, or larger
      ones of the same score. */
  lemma {:induction false} PlanWithoutLessValuable(h: Hashes, sensitive: Sensitivity, snapshot: Snapshot, policy: Policy, l: Limits,
                                files: seq<FileInput>, tier: Tier, score: nat, bytes: nat, f: UnitFile)
    requires Buildable(policy, l, files) && OwnAnchors(files)
    requires f in Admitted(sensitive, policy, files) && AtLeast(f, tier, score, bytes)
    ensures var rest := Filter(Stays(sensitive, Normalized(policy), tier, score, bytes), files);
      f in AllFiles(Body(h, sensitive, snapshot, policy, l, files).units)
      <==> f in AllFiles(Body(h, sensitive, snapshot, policy, l, rest).units)
  {
    var rest := Filter(Stays(sensitive, Normalized(policy), tier, score, bytes), files);
    LeavingOutLessValuable(sensitive, policy, l, files, tier, score, bytes);
    LessValuableNeverDisplace(h, sensitive, snapshot, policy, l, files, rest, tier, score, bytes, f);
  }
}
