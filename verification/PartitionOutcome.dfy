/** What a finished partition plan does with the files it was given
    (crates/revoot-core/src/partition.rs, lines 851-1127). */
module PartitionOutcomes {
  import opened Sorting
  import opened Sequences
  import opened ChangedPaths
  import opened PartitionInputs
  import opened PartitionPacking
  import opened PartitionPlans

  /** The body of the plan of a successful call. */
  function Body(h: Hashes, sensitive: Sensitivity, snapshot: Snapshot, policy: Policy, l: Limits, files: seq<FileInput>): PlanBody {
    PlanFor(h, sensitive, snapshot, policy, l, files).body
  }

  /** The files the policy admits. */
  function Admitted(sensitive: Sensitivity, policy: Policy, files: seq<FileInput>): seq<UnitFile> {
    PrepareAll(sensitive, Normalized(policy), SortBy(ByInputPath, files)).included
  }

  /** The file could still be added, to some work unit or to a fresh one, within every limit. */
  ghost predicate RoomInPlan(b: PlanBody, f: UnitFile) {
    var files := AllFiles(b.units);
    && |files| + 1 <= b.limits.maxFiles
    && Bytes(files) + f.bytes <= b.limits.maxTotalBytes
    && (f.value.tier == Low ==> LowBytes(files) + f.bytes <= LowSignalLimit(b.limits))
    && ((exists u :: u in b.units && Fits(u.files, f, b.limits)) || (|b.units| < b.limits.maxWorkUnits && Fits([], f, b.limits)))
  }

  // ----- from the packing to the plan

  lemma DistinctInputs(files: seq<FileInput>)
    requires ValidInputs(files)
    ensures Distinct(Map(InputPath, files))
  {
    var paths := Map(InputPath, files);
    forall i, j | 0 <= i < j < |paths| ensures paths[i] != paths[j] {
      assert Map(NewPathOf, paths)[i] != Map(NewPathOf, paths)[j];
    }
  }

  /** The plan holds the files and the omissions of the packing. */
  lemma PlanHoldsPacking(h: Hashes, sensitive: Sensitivity, snapshot: Snapshot, policy: Policy, l: Limits, files: seq<FileInput>)
    ensures var b, p := Body(h, sensitive, snapshot, policy, l, files), Pack(sensitive, Normalized(policy), l, files);
      && multiset(AllFiles(b.units)) == multiset(Flatten(p.bins)) && multiset(b.omitted) == multiset(p.omitted)
      && b.limits == l && |b.units| == |p.bins|
  {
    var p := Pack(sensitive, Normalized(policy), l, files);
    SortedUnitsKeepFiles(h, snapshot, Normalized(policy), p.bins);
    var made := Map(MakeUnit(h, snapshot, Normalized(policy)), p.bins);
    SameElements(made, SortBy(ById, made));
  }

  /** Conservation: every path that comes in occurs once, among the files of the work units or among the
      omissions, and nothing else does. */
  lemma PlansConserve(h: Hashes, sensitive: Sensitivity, snapshot: Snapshot, policy: Policy, l: Limits, files: seq<FileInput>)
    requires Buildable(policy, l, files)
    ensures var b := Body(h, sensitive, snapshot, policy, l, files);
      var outcomes := Map(PathOf, AllFiles(b.units)) + Map(OmittedPath, b.omitted);
      multiset(outcomes) == multiset(Map(InputPath, files)) && Distinct(outcomes)
  {
    var b, p := Body(h, sensitive, snapshot, policy, l, files), Pack(sensitive, Normalized(policy), l, files);
    PlanHoldsPacking(h, sensitive, snapshot, policy, l, files);
    PipelineConserves(sensitive, Normalized(policy), l, files);
    MapPermutation(PathOf, AllFiles(b.units), Flatten(p.bins));
    MapPermutation(OmittedPath, b.omitted, p.omitted);
    DistinctInputs(files);
    DistinctPermutation(Map(InputPath, files), Map(PathOf, AllFiles(b.units)) + Map(OmittedPath, b.omitted));
  }

  /** A work unit fits a file exactly when the bin it was made of does. */
  lemma UnitFitsLikeBin(h: Hashes, snapshot: Snapshot, policy: Policy, bin: seq<UnitFile>, f: UnitFile, l: Limits)
    ensures Fits(MakeUnit(h, snapshot, policy)(bin).files, f, l) <==> Fits(bin, f, l)
  {
    TotalsPermutation(bin, SortBy(ByPath, bin));
  }

  lemma {:induction false} SomeMadeUnitFits(h: Hashes, snapshot: Snapshot, policy: Policy, bins: seq<seq<UnitFile>>, f: UnitFile, l: Limits)
    ensures (exists u :: u in Map(MakeUnit(h, snapshot, policy), bins) && Fits(u.files, f, l))
      <==> exists i :: 0 <= i < |bins| && Fits(bins[i], f, l)
  {
    var made := Map(MakeUnit(h, snapshot, policy), bins);
    if u :| u in made && Fits(u.files, f, l) {
      var i :| 0 <= i < |bins| && made[i] == u;
      UnitFitsLikeBin(h, snapshot, policy, bins[i], f, l);
    }
    if i :| 0 <= i < |bins| && Fits(bins[i], f, l) {
      UnitFitsLikeBin(h, snapshot, policy, bins[i], f, l);
      assert made[i] in made;
    }
  }

  lemma {:induction false} SomeUnitFits(h: Hashes, snapshot: Snapshot, policy: Policy, bins: seq<seq<UnitFile>>, f: UnitFile, l: Limits)
    ensures (exists u :: u in SortBy(ById, Map(MakeUnit(h, snapshot, policy), bins)) && Fits(u.files, f, l))
      <==> exists i :: 0 <= i < |bins| && Fits(bins[i], f, l)
  {
    var made := Map(MakeUnit(h, snapshot, policy), bins);
    SameElements(made, SortBy(ById, made));
    SomeMadeUnitFits(h, snapshot, policy, bins, f, l);
  }

  lemma PlanHasPackingTotals(h: Hashes, sensitive: Sensitivity, snapshot: Snapshot, policy: Policy, l: Limits, files: seq<FileInput>)
    requires l.Valid()
    ensures var b, p := Body(h, sensitive, snapshot, policy, l, files), Pack(sensitive, Normalized(policy), l, files);
      && |AllFiles(b.units)| == p.files && Bytes(AllFiles(b.units)) == p.bytes && LowBytes(AllFiles(b.units)) == p.lowBytes
      && |b.units| == |p.bins| && WithinLimits(p, l)
  {
    var b, p := Body(h, sensitive, snapshot, policy, l, files), Pack(sensitive, Normalized(policy), l, files);
    PlanHoldsPacking(h, sensitive, snapshot, policy, l, files);
    TotalsPermutation(AllFiles(b.units), Flatten(p.bins));
    var prepared := PrepareAll(sensitive, Normalized(policy), SortBy(ByInputPath, files));
    PackingWithinLimits(SortBy(Preferred, prepared.included), prepared.omitted, l);
  }

  /** Room in the plan is room in the packing. */
  lemma RoomInBoth(h: Hashes, sensitive: Sensitivity, snapshot: Snapshot, policy: Policy, l: Limits, files: seq<FileInput>, f: UnitFile)
    requires l.Valid()
    ensures RoomInPlan(Body(h, sensitive, snapshot, policy, l, files), f) <==> Room(Pack(sensitive, Normalized(policy), l, files), f, l)
  {
    PlanHasPackingTotals(h, sensitive, snapshot, policy, l, files);
    SomeUnitFits(h, snapshot, Normalized(policy), Pack(sensitive, Normalized(policy), l, files).bins, f, l);
  }

  /** Maximality: the work units hold admitted files only, and an admitted file that is in none of them
      could not be added to any of them, nor to a fresh one, without breaking a limit. */
  lemma PlansAreMaximal(h: Hashes, sensitive: Sensitivity, snapshot: Snapshot, policy: Policy, l: Limits, files: seq<FileInput>, f: UnitFile)
    requires Buildable(policy, l, files)
    ensures var b, admitted := Body(h, sensitive, snapshot, policy, l, files), Admitted(sensitive, policy, files);
      && (f in AllFiles(b.units) ==> f in admitted)
      && (f in admitted ==> f in AllFiles(b.units) || !RoomInPlan(b, f))
  {
    var b, p := Body(h, sensitive, snapshot, policy, l, files), Pack(sensitive, Normalized(policy), l, files);
    var prepared := PrepareAll(sensitive, Normalized(policy), SortBy(ByInputPath, files));
    var ranked := SortBy(Preferred, prepared.included);
    PlanHoldsPacking(h, sensitive, snapshot, policy, l, files);
    SameElements(AllFiles(b.units), Flatten(p.bins));
    SameElements(prepared.included, ranked);
    PackingSelects(ranked, prepared.omitted, l);
    assert f in Flatten(p.bins) <==> f in multiset(Flatten(p.bins));
    assert f in ranked <==> f in multiset(ranked);
    if f in ranked {
      PackingIsMaximal(ranked, prepared.omitted, l, f);
      RoomInBoth(h, sensitive, snapshot, policy, l, files, f);
    }
  }

  lemma UnitWithinLikeBin(h: Hashes, snapshot: Snapshot, policy: Policy, bin: seq<UnitFile>, l: Limits)
    ensures WithinUnit(MakeUnit(h, snapshot, policy)(bin).files, l) <==> WithinUnit(bin, l)
  {
    TotalsPermutation(bin, SortBy(ByPath, bin));
  }

  lemma {:induction false} UnitsWithin(h: Hashes, snapshot: Snapshot, policy: Policy, bins: seq<seq<UnitFile>>, l: Limits)
    requires forall i :: 0 <= i < |bins| ==> WithinUnit(bins[i], l)
    ensures forall u :: u in SortBy(ById, Map(MakeUnit(h, snapshot, policy), bins)) ==> WithinUnit(u.files, l)
  {
    var made := Map(MakeUnit(h, snapshot, policy), bins);
    SameElements(made, SortBy(ById, made));
    forall u | u in made ensures WithinUnit(u.files, l) {
      var i :| 0 <= i < |bins| && made[i] == u;
      UnitWithinLikeBin(h, snapshot, policy, bins[i], l);
    }
  }

  /** Every limit holds of the plan, whether or not its identities are distinct. */
  lemma PlansKeepLimits(h: Hashes, sensitive: Sensitivity, snapshot: Snapshot, policy: Policy, l: Limits, files: seq<FileInput>)
    requires Buildable(policy, l, files)
    ensures var b := Body(h, sensitive, snapshot, policy, l, files);
      WithinTotals(l, b.units) && forall u :: u in b.units ==> WithinUnit(u.files, l)
  {
    PlanHasPackingTotals(h, sensitive, snapshot, policy, l, files);
    UnitsWithin(h, snapshot, Normalized(policy), Pack(sensitive, Normalized(policy), l, files).bins, l);
  }

  ghost predicate SameRules(p: Policy, q: Policy) {
    && (p.version, p.includedPaths, p.includedPrefixes, p.includedSuffixes) == (q.version, q.includedPaths, q.includedPrefixes, q.includedSuffixes)
    && (p.excludedPaths, p.includeGenerated, p.maxFileBytes) == (q.excludedPaths, q.includeGenerated, q.maxFileBytes)
    && multiset(p.excludedPrefixes) == multiset(q.excludedPrefixes)
    && multiset(p.excludedSuffixes) == multiset(q.excludedSuffixes)
    && multiset(p.excludedBasenamePrefixes) == multiset(q.excludedBasenamePrefixes)
  }

  /** A plan names what it was made for: the snapshot, the limits and the rules of the policy, in the order that the
      checker demands. */
  lemma PlanNamesItsInputs(h: Hashes, sensitive: Sensitivity, snapshot: Snapshot, policy: Policy, l: Limits, files: seq<FileInput>)
    requires Buildable(policy, l, files)
    ensures var b := Body(h, sensitive, snapshot, policy, l, files);
      && b.schema == "revoot.partition-plan/v3" && b.snapshot == snapshot && b.limits == l
      && SameRules(b.policy, policy) && SortedPolicy(b.policy)
      && PlanFor(h, sensitive, snapshot, policy, l, files).digest == h.plan(b)
  {
    NormalizedPolicy(policy);
  }
}
