/** Assembling a partition plan and replaying it
    (crates/revoot-core/src/partition.rs, lines 613-675 and 851-1127). */
module PartitionPlans {
  import opened Wrappers
  import opened Sorting
  import opened Sequences
  import opened Words
  import opened ChangedPaths
  import opened PartitionInputs
  import opened PartitionPacking
  import Strings

  const PLAN_SCHEMA := "revoot.partition-plan/v3"

  /** An immutable snapshot identity, as its canonical serialization. */
  type Snapshot = string

  datatype WorkUnit = WorkUnit(id: string, files: seq<UnitFile>, bytes: u64, anchorCount: u32)

  datatype Coverage = Coverage(
    inputFiles: u32, includedFiles: u32, omittedFiles: u32, includedBytes: u64,
    reasons: map<OmissionReason, nat>, complete: bool)

  datatype PlanBody = PlanBody(
    schema: string, snapshot: Snapshot, policy: Policy, limits: Limits,
    units: seq<WorkUnit>, omitted: seq<Omitted>, coverage: Coverage)

  datatype Plan = Plan(body: PlanBody, digest: string)

  /** The digests the source computes with SHA-256. */
  datatype Hashes = Hashes(unit: (Snapshot, Policy, seq<UnitFile>) -> string, plan: PlanBody -> string)

  function IdOf(u: WorkUnit): string { u.id }

  /** No two work units share an identity. */
  ghost predicate DistinctIds(units: seq<WorkUnit>) {
    Distinct(Map(IdOf, units))
  }

  /** Units with different files have different identities: the digest does not collide on them. */
  ghost predicate CollisionFree(units: seq<WorkUnit>) {
    forall u, v :: u in units && v in units && u.id == v.id ==> u.files == v.files
  }

  datatype ReplayError =
    | SchemaVersion | Configuration(error: ConfigurationError) | WorkUnitOrder | OmissionOrder | DuplicatePath
    | DuplicateAnchorId | FileOrder | ObjectOrderError | AnchorOrder | DerivedCount | LimitExceeded | WorkUnitId
    | CoverageError | PlanDigest

  datatype BuildError =
    | BadConfiguration(error: ConfigurationError) | TooManyInputs | RepeatedPath(path: ChangedPath)
    | InvalidChangedPath(path: ChangedPath) | InvalidReviewValue(path: ChangedPath) | InternalReplay(replay: ReplayError)

  // ----- what the checker accepts

  predicate ByPath(a: UnitFile, b: UnitFile) { PathLess(a.path, b.path) }

  predicate ByOmittedPath(a: Omitted, b: Omitted) { PathLess(a.path, b.path) }

  predicate ById(a: WorkUnit, b: WorkUnit) { Strings.Less(a.id, b.id) }

  function FilesOf(u: WorkUnit): seq<UnitFile> { u.files }

  function AllFiles(units: seq<WorkUnit>): seq<UnitFile> {
    Flatten(Map(FilesOf, units))
  }

  function NewPaths(files: seq<UnitFile>): set<string> {
    set f | f in files :: f.path.newPath
  }

  function AnchorSet(files: seq<UnitFile>): set<string> {
    set f, a | f in files && a in f.anchors :: a
  }

  /** Every file's path and every file's anchors are new when it is reached. */
  ghost predicate Clean(files: seq<UnitFile>) {
    files == [] ||
    (var f, before := files[|files| - 1], files[..|files| - 1];
     && Clean(before)
     && f.path.newPath !in NewPaths(before)
     && SetOf(f.anchors) * AnchorSet(before) == {})
  }

  ghost predicate ValidUnitFiles(files: seq<UnitFile>) {
    StrictlySorted(ByPath, files) && forall f :: f in files ==> ValidFile(f)
  }

  ghost predicate ValidUnit(h: Hashes, b: PlanBody, u: WorkUnit) {
    && ValidUnitFiles(u.files)
    && u.bytes == Bytes(u.files) <= b.limits.maxBytesPerUnit
    && u.anchorCount == Anchors(u.files) <= b.limits.maxAnchorsPerUnit
    && |u.files| <= b.limits.maxFilesPerUnit
    && u.id == h.unit(b.snapshot, b.policy, u.files)
  }

  function CountReasons(omitted: seq<Omitted>): map<OmissionReason, nat> {
    if omitted == [] then map[]
    else
      var before, r := CountReasons(omitted[..|omitted| - 1]), omitted[|omitted| - 1].reason;
      before[r := (if r in before then before[r] else 0) + 1]
  }

  function OmittedNewPath(o: Omitted): string { o.path.newPath }

  /** Omissions in path order, each structurally sound and for a path that occurs nowhere else. */
  ghost predicate ValidOmissions(files: seq<UnitFile>, omitted: seq<Omitted>) {
    && StrictlySorted(ByOmittedPath, omitted)
    && (forall o :: o in omitted ==> o.path.Sound() && o.path.newPath !in NewPaths(files))
    && Distinct(Map(OmittedNewPath, omitted))
  }

  ghost predicate SortedPolicy(p: Policy) {
    && StrictlySorted(Strings.Less, p.excludedPrefixes)
    && StrictlySorted(Strings.Less, p.excludedSuffixes)
    && StrictlySorted(Strings.Less, p.excludedBasenamePrefixes)
  }

  ghost predicate ValidUnits(h: Hashes, b: PlanBody, units: seq<WorkUnit>) {
    && (forall u :: u in units ==> ValidUnit(h, b, u))
    && StrictlySorted(ById, units)
    && Clean(AllFiles(units))
  }

  ghost predicate WithinTotals(l: Limits, units: seq<WorkUnit>) {
    && |units| <= l.maxWorkUnits
    && |AllFiles(units)| <= l.maxFiles
    && Bytes(AllFiles(units)) <= l.maxTotalBytes
    && LowBytes(AllFiles(units)) <= LowSignalLimit(l)
  }

  ghost predicate ExactCoverage(c: Coverage, files: seq<UnitFile>, omitted: seq<Omitted>) {
    && c.inputFiles == |files| + |omitted|
    && c.includedFiles == |files|
    && c.omittedFiles == |omitted|
    && c.includedBytes == Bytes(files)
    && c.reasons == CountReasons(omitted)
    && c.complete == (omitted == [])
  }

  /** The plans `validate_replay` accepts. */
  ghost predicate ValidPlan(h: Hashes, p: Plan) {
    var b := p.body;
    && b.schema == PLAN_SCHEMA
    && b.limits.Valid() && ValidPolicy(b.policy) && SortedPolicy(b.policy)
    && ValidUnits(h, b, b.units) && WithinTotals(b.limits, b.units)
    && ValidOmissions(AllFiles(b.units), b.omitted)
    && ExactCoverage(b.coverage, AllFiles(b.units), b.omitted)
    && p.digest == h.plan(b)
  }

  // ----- the builder

  datatype Preparation = Preparation(included: seq<UnitFile>, omitted: seq<Omitted>, seen: set<string>)

  function Extend(p: Preparation, r: Result<UnitFile, Omitted>, seen: set<string>): Preparation {
    match r
    case Success(file) => Preparation(p.included + [file], p.omitted, seen)
    case Failure(o) => Preparation(p.included, p.omitted + [o], seen)
  }

  function PrepareStep(sensitive: Sensitivity, policy: Policy, p: Preparation, f: FileInput): Preparation {
    var (r, seen) := PrepareFile(sensitive, f, policy, p.seen);
    Extend(p, r, seen)
  }

  function PrepareAll(sensitive: Sensitivity, policy: Policy, files: seq<FileInput>): Preparation {
    if files == [] then Preparation([], [], {})
    else PrepareStep(sensitive, policy, PrepareAll(sensitive, policy, files[..|files| - 1]), files[|files| - 1])
  }

  predicate ByInputPath(a: FileInput, b: FileInput) { PathLess(a.path, b.path) }

  /** Review value first, then small files, then path. */
  predicate Preferred(a: UnitFile, b: UnitFile) {
    if a.value.tier != b.value.tier then a.value.tier.Rank() > b.value.tier.Rank()
    else if a.value.score != b.value.score then a.value.score > b.value.score
    else if a.bytes != b.bytes then a.bytes < b.bytes
    else PathLess(a.path, b.path)
  }

  function InputPath(f: FileInput): ChangedPath { f.path }

  function NewPathOf(p: ChangedPath): string { p.newPath }

  /** Sound paths, valid review values, and no new path twice. */
  ghost predicate ValidInputs(files: seq<FileInput>) {
    && (forall f :: f in files ==> f.path.Sound() && f.value.Valid())
    && Distinct(Map(NewPathOf, Map(InputPath, files)))
  }

  function Normalized(p: Policy): Policy {
    p.(excludedPrefixes := SortBy(Strings.Less, p.excludedPrefixes),
       excludedSuffixes := SortBy(Strings.Less, p.excludedSuffixes),
       excludedBasenamePrefixes := SortBy(Strings.Less, p.excludedBasenamePrefixes))
  }

  function Pack(sensitive: Sensitivity, policy: Policy, l: Limits, files: seq<FileInput>): Packing {
    var prepared := PrepareAll(sensitive, policy, SortBy(ByInputPath, files));
    PackAll(SortBy(Preferred, prepared.included), prepared.omitted, l)
  }

  function Clamp32(n: nat): u32 { if n <= U32_MAX then n else U32_MAX }

  function Clamp64(n: nat): u64 { if n <= U64_MAX then n else U64_MAX }

  /** The work unit of one bin: files in path order, and the identity and totals of those. */
  function UnitOf(h: Hashes, snapshot: Snapshot, policy: Policy, bin: seq<UnitFile>): WorkUnit {
    var files := SortBy(ByPath, bin);
    WorkUnit(h.unit(snapshot, policy, files), files, Clamp64(Bytes(files)), Clamp32(Anchors(files)))
  }

  function MakeUnit(h: Hashes, snapshot: Snapshot, policy: Policy): seq<UnitFile> -> WorkUnit {
    (bin: seq<UnitFile>) => UnitOf(h, snapshot, policy, bin)
  }

  /** `finalize_plan` up to its own replay. */
  function Assemble(h: Hashes, snapshot: Snapshot, policy: Policy, l: Limits, p: Packing): Plan {
    var omitted := SortBy(ByOmittedPath, p.omitted);
    var body := PlanBody(
      PLAN_SCHEMA, snapshot, policy, l, SortBy(ById, Map(MakeUnit(h, snapshot, policy), p.bins)), omitted,
      Coverage(Clamp32(p.files + |omitted|), Clamp32(p.files), Clamp32(|omitted|), Clamp64(p.bytes),
               CountReasons(omitted), omitted == []));
    Plan(body, h.plan(body))
  }

  /** The plan of a successful call. */
  function PlanFor(h: Hashes, sensitive: Sensitivity, snapshot: Snapshot, policy: Policy, l: Limits, files: seq<FileInput>): Plan {
    Assemble(h, snapshot, Normalized(policy), l, Pack(sensitive, Normalized(policy), l, files))
  }

  /** When building succeeds. */
  ghost predicate Buildable(policy: Policy, l: Limits, files: seq<FileInput>) {
    && ValidPolicy(policy) && l.Valid()
    && |files| <= MAX_PLAN_FILES
    && ValidInputs(files)
  }

  // ----- preparation

  ghost predicate DisjointAnchors(files: seq<UnitFile>) {
    forall i, j :: 0 <= i < j < |files| ==> SetOf(files[i].anchors) * SetOf(files[j].anchors) == {}
  }

  /** Admitted files are valid and share no anchor. */
  ghost predicate Admissible(p: Preparation) {
    && (forall f :: f in p.included ==> ValidFile(f) && SetOf(f.anchors) <= p.seen)
    && DisjointAnchors(p.included)
  }

  /** Every input has one outcome: admitted or omitted. */
  ghost predicate Tallied(files: seq<FileInput>, p: Preparation) {
    multiset(Map(PathOf, p.included)) + multiset(Map(OmittedPath, p.omitted)) == multiset(Map(InputPath, files))
  }

  lemma {:induction false} PreparationAdmits(sensitive: Sensitivity, policy: Policy, files: seq<FileInput>)
    requires forall f :: f in files ==> f.path.Sound() && f.value.Valid()
    ensures Admissible(PrepareAll(sensitive, policy, files))
  {
    if files != [] {
      var n := |files| - 1;
      var f := files[n];
      PreparationAdmits(sensitive, policy, files[..n]);
      var p := PrepareAll(sensitive, policy, files[..n]);
      PreparedFileValid(sensitive, f, policy, p.seen);
      var (r, seen) := PrepareFile(sensitive, f, policy, p.seen);
      if r.Success? {
        IncludeOne(p, Extend(p, r, seen), r.value);
      }
    }
  }

  lemma ExtendTallies(rest: seq<FileInput>, p: Preparation, f: FileInput, r: Result<UnitFile, Omitted>, seen: set<string>)
    requires Tallied(rest, p)
    requires f.path == match r case Success(file) => file.path case Failure(o) => o.path
    ensures Tallied(rest + [f], Extend(p, r, seen))
  {
    MapSnoc(InputPath, rest, f);
    match r {
      case Success(file) => MapSnoc(PathOf, p.included, file);
      case Failure(o) => MapSnoc(OmittedPath, p.omitted, o);
    }
  }

  lemma {:induction false} PreparationTallies(sensitive: Sensitivity, policy: Policy, files: seq<FileInput>)
    requires forall f :: f in files ==> f.path.Sound() && f.value.Valid()
    ensures Tallied(files, PrepareAll(sensitive, policy, files))
  {
    if files == [] {
      assert Map(PathOf, []) == [] && Map(OmittedPath, []) == [] && Map(InputPath, []) == [];
    } else {
      var n := |files| - 1;
      var rest, f := files[..n], files[n];
      PreparationTallies(sensitive, policy, rest);
      var p := PrepareAll(sensitive, policy, rest);
      PreparedFileValid(sensitive, f, policy, p.seen);
      var (r, seen) := PrepareFile(sensitive, f, policy, p.seen);
      ExtendTallies(rest, p, f, r, seen);
      assert files == rest + [f];
    }
  }

  lemma IncludeOne(p: Preparation, q: Preparation, f: UnitFile)
    requires DisjointAnchors(p.included) && (forall x :: x in p.included ==> ValidFile(x) && SetOf(x.anchors) <= p.seen)
    requires ValidFile(f) && SetOf(f.anchors) * p.seen == {}
    requires q.included == p.included + [f] && q.seen == p.seen + SetOf(f.anchors)
    ensures DisjointAnchors(q.included) && (forall x :: x in q.included ==> ValidFile(x) && SetOf(x.anchors) <= q.seen)
  {
    forall i, j | 0 <= i < j < |q.included| ensures SetOf(q.included[i].anchors) * SetOf(q.included[j].anchors) == {} {
      if j == |p.included| {
        assert p.included[i] in p.included;
      } else {
        assert q.included[i] == p.included[i] && q.included[j] == p.included[j];
      }
    }
  }

  // ----- separated files

  function NewPath(f: UnitFile): string { f.path.newPath }

  ghost predicate DisjointElements(files: seq<UnitFile>) {
    forall x, y :: x in files && y in files && x != y ==> SetOf(x.anchors) * SetOf(y.anchors) == {}
  }

  /** Valid files, no new path twice, no anchor twice. */
  ghost predicate Separate(files: seq<UnitFile>) {
    && (forall f :: f in files ==> ValidFile(f))
    && Distinct(Map(NewPath, files))
    && DisjointElements(files)
  }

  lemma DistinctParts<T>(a: seq<T>, b: seq<T>)
    requires Distinct(a + b)
    ensures Distinct(a) && Distinct(b) && forall x :: x in a ==> x !in b
  {
    assert forall i :: 0 <= i < |a| ==> (a + b)[i] == a[i];
    assert forall i :: 0 <= i < |b| ==> (a + b)[|a| + i] == b[i];
  }

  lemma SeparatePermutation(a: seq<UnitFile>, b: seq<UnitFile>)
    requires multiset(a) == multiset(b) && Separate(a)
    ensures Separate(b)
  {
    SameElements(a, b);
    MapPermutation(NewPath, a, b);
    DistinctPermutation(Map(NewPath, a), Map(NewPath, b));
  }

  /** A stretch of separated files is separated. */
  lemma SeparatePart(l: seq<UnitFile>, m: seq<UnitFile>, r: seq<UnitFile>)
    requires Separate(l + m + r)
    ensures Separate(m)
    ensures forall x :: x in m ==> x !in l && x !in r
  {
    var all := l + m + r;
    MapConcat(NewPath, l + m, r);
    MapConcat(NewPath, l, m);
    DistinctParts(Map(NewPath, l) + Map(NewPath, m), Map(NewPath, r));
    DistinctParts(Map(NewPath, l), Map(NewPath, m));
    forall x | x in m ensures x in all && x !in l && x !in r {
      MemberMapped(m, x);
      forall y | y in l ensures y != x { MemberMapped(l, y); }
      forall y | y in r ensures y != x { MemberMapped(r, y); }
    }
  }

  lemma {:induction false} MemberMapped(s: seq<UnitFile>, x: UnitFile)
    requires x in s
    ensures NewPath(x) in Map(NewPath, s)
  {
    var i :| 0 <= i < |s| && s[i] == x;
    assert Map(NewPath, s)[i] == NewPath(x);
  }

  lemma SeparateDistinct(files: seq<UnitFile>)
    requires Separate(files)
    ensures Distinct(files) && Untied(ByPath, files)
  {
    PathOrder();
    forall i, j | 0 <= i < j < |files| ensures files[i].path.newPath != files[j].path.newPath {
      assert Map(NewPath, files)[i] != Map(NewPath, files)[j];
    }
    forall x, y | x in files && y in files && x != y ensures ByPath(x, y) || ByPath(y, x) {
      var i :| 0 <= i < |files| && files[i] == x;
      var j :| 0 <= j < |files| && files[j] == y;
      assert x.path.newPath != y.path.newPath;
    }
  }

  lemma {:induction false} SeparateIsClean(files: seq<UnitFile>)
    requires Separate(files)
    ensures Clean(files)
  {
    if files != [] {
      var n := |files| - 1;
      var before, f := files[..n], files[n];
      assert files == [] + before + [f];
      SeparatePart([], before, [f]);
      SeparateIsClean(before);
      SeparateDistinct(files);
      forall x | x in before ensures x.path.newPath != f.path.newPath && SetOf(x.anchors) * SetOf(f.anchors) == {} {
        var i :| 0 <= i < n && files[i] == x;
        assert Map(NewPath, files)[i] != Map(NewPath, files)[n];
        assert f in files && x != f;
      }
      forall a | a in SetOf(f.anchors) ensures a !in AnchorSet(before) {
        forall x | x in before ensures a !in x.anchors {
          assert a !in SetOf(x.anchors) * SetOf(f.anchors);
        }
      }
    }
  }

  // ----- units

  lemma ByPathOrder()
    ensures StrictWeak(ByPath) && StrictWeak(ByOmittedPath) && StrictWeak(ByInputPath)
  {
    PathOrder();
  }

  lemma {:induction false} SortedUnit(bin: seq<UnitFile>)
    requires Separate(bin)
    ensures ValidUnitFiles(SortBy(ByPath, bin))
    ensures Bytes(SortBy(ByPath, bin)) == Bytes(bin) && Anchors(SortBy(ByPath, bin)) == Anchors(bin)
    ensures |SortBy(ByPath, bin)| == |bin|
  {
    SeparateDistinct(bin);
    ByPathOrder();
    SortByStrict(ByPath, bin);
    SameElements(bin, SortBy(ByPath, bin));
    TotalsPermutation(bin, SortBy(ByPath, bin));
  }

  lemma {:induction false} FlattenPermutation<T>(a: seq<seq<T>>, b: seq<seq<T>>)
    requires multiset(a) == multiset(b)
    ensures multiset(Flatten(a)) == multiset(Flatten(b))
  {
    if a == [] {
      SameElements(a, b);
    } else {
      var i := TakeOut(a, b);
      var l, r := b[..i], b[i + 1..];
      FlattenPermutation(a[1..], l + r);
      assert a == [a[0]] + a[1..];
      FlattenConcat([a[0]], a[1..]);
      FlattenSingle(a[0]);
      FlattenConcat(l, r);
      FlattenSplit(l, a[0], r);
    }
  }

  lemma AllFilesSnoc(rest: seq<WorkUnit>, u: WorkUnit)
    ensures AllFiles(rest + [u]) == AllFiles(rest) + u.files
  {
    MapSnoc(FilesOf, rest, u);
    FlattenConcat(Map(FilesOf, rest), [u.files]);
    FlattenSingle(u.files);
  }

  /** Sorting inside the units keeps the files. */
  lemma {:induction false} UnitsKeepFiles(h: Hashes, snapshot: Snapshot, policy: Policy, bins: seq<seq<UnitFile>>)
    ensures multiset(AllFiles(Map(MakeUnit(h, snapshot, policy), bins))) == multiset(Flatten(bins))
  {
    var make := MakeUnit(h, snapshot, policy);
    if bins == [] {
      assert Map(FilesOf, Map(make, bins)) == [];
    } else {
      var n := |bins| - 1;
      UnitsKeepFiles(h, snapshot, policy, bins[..n]);
      assert bins == bins[..n] + [bins[n]];
      MapSnoc(make, bins[..n], bins[n]);
      AllFilesSnoc(Map(make, bins[..n]), make(bins[n]));
    }
  }

  lemma {:induction false} SortedUnitsKeepFiles(h: Hashes, snapshot: Snapshot, policy: Policy, bins: seq<seq<UnitFile>>)
    ensures var units := SortBy(ById, Map(MakeUnit(h, snapshot, policy), bins));
      multiset(AllFiles(units)) == multiset(Flatten(bins))
  {
    var units := Map(MakeUnit(h, snapshot, policy), bins);
    UnitsKeepFiles(h, snapshot, policy, bins);
    MapPermutation(FilesOf, units, SortBy(ById, units));
    FlattenPermutation(Map(FilesOf, units), Map(FilesOf, SortBy(ById, units)));
  }

  lemma {:induction false} BinSeparate(bins: seq<seq<UnitFile>>, i: nat)
    requires i < |bins| && Separate(Flatten(bins))
    ensures Separate(bins[i])
    ensures forall x :: x in bins[i] ==> x !in Flatten(bins[..i]) && x !in Flatten(bins[i + 1..])
  {
    assert bins == bins[..i] + [bins[i]] + bins[i + 1..];
    FlattenSplit(bins[..i], bins[i], bins[i + 1..]);
    SeparatePart(Flatten(bins[..i]), bins[i], Flatten(bins[i + 1..]));
  }

  lemma {:induction false} NotInBin(bins: seq<seq<UnitFile>>, i: nat, x: UnitFile)
    requires i < |bins| && x !in Flatten(bins)
    ensures x !in bins[i]
  {
    assert bins == bins[..i] + [bins[i]] + bins[i + 1..];
    FlattenSplit(bins[..i], bins[i], bins[i + 1..]);
  }

  lemma LaterBinsDiffer(bins: seq<seq<UnitFile>>, i: nat, j: nat, x: UnitFile)
    requires i < j < |bins| && x !in Flatten(bins[i + 1..])
    ensures x !in bins[j]
  {
    assert bins[i + 1..][j - i - 1] == bins[j];
    NotInBin(bins[i + 1..], j - i - 1, x);
  }

  /** Different nonempty units of separated files stay different when sorted. */
  lemma {:induction false} DifferentUnits(bins: seq<seq<UnitFile>>, i: nat, j: nat)
    requires i < j < |bins| && Separate(Flatten(bins)) && bins[i] != []
    ensures SortBy(ByPath, bins[i]) != SortBy(ByPath, bins[j])
  {
    var a, b := SortBy(ByPath, bins[i]), SortBy(ByPath, bins[j]);
    SameElements(bins[i], a);
    SameElements(bins[j], b);
    var x := bins[i][0];
    assert x in bins[i];
    BinSeparate(bins, i);
    LaterBinsDiffer(bins, i, j, x);
    assert x in a && x !in b;
  }

  /** Sorting by identity is strict exactly when the identities are distinct. */
  lemma {:induction false} SortedById(units: seq<WorkUnit>)
    ensures StrictlySorted(ById, SortBy(ById, units)) <==> DistinctIds(units)
  {
    var sorted := SortBy(ById, units);
    MapPermutation(IdOf, units, sorted);
    Strings.LessIsTotalOrder();
    if DistinctIds(units) {
      IdsUntied(units);
      SortByStrict(ById, units);
    } else if StrictlySorted(ById, sorted) {
      forall i, j | 0 <= i < j < |sorted| ensures sorted[i].id != sorted[j].id {
        assert ById(sorted[i], sorted[j]);
      }
      DistinctPermutation(Map(IdOf, sorted), Map(IdOf, units));
    }
  }

  lemma IdsUntied(units: seq<WorkUnit>)
    requires DistinctIds(units)
    ensures Untied(ById, units) && Distinct(units)
  {
    Strings.LessIsTotalOrder();
    var ids := Map(IdOf, units);
    forall i, j | 0 <= i < j < |units| ensures units[i].id != units[j].id {
      assert ids[i] != ids[j];
    }
    forall x, y | x in units && y in units && x != y ensures ById(x, y) || ById(y, x) {
      var i :| 0 <= i < |units| && units[i] == x;
      var j :| 0 <= j < |units| && units[j] == y;
    }
  }

  /** Whether the identities are distinct does not depend on the order. */
  lemma IdsPermuted(a: seq<WorkUnit>, b: seq<WorkUnit>)
    requires multiset(a) == multiset(b)
    ensures DistinctIds(a) <==> DistinctIds(b)
  {
    MapPermutation(IdOf, a, b);
    if DistinctIds(a) {
      DistinctPermutation(Map(IdOf, a), Map(IdOf, b));
    } else if DistinctIds(b) {
      DistinctPermutation(Map(IdOf, b), Map(IdOf, a));
    }
  }

  /** Units of separated bins only share an identity when the digest collides. */
  lemma {:induction false} CollisionFreeIds(h: Hashes, snapshot: Snapshot, policy: Policy, bins: seq<seq<UnitFile>>)
    requires Separate(Flatten(bins)) && forall i :: 0 <= i < |bins| ==> bins[i] != []
    requires CollisionFree(Map(MakeUnit(h, snapshot, policy), bins))
    ensures DistinctIds(Map(MakeUnit(h, snapshot, policy), bins))
  {
    var units := Map(MakeUnit(h, snapshot, policy), bins);
    forall i, j | 0 <= i < j < |units| ensures Map(IdOf, units)[i] != Map(IdOf, units)[j] {
      DifferentUnits(bins, i, j);
      assert units[i] in units && units[j] in units;
    }
  }

  lemma UnitValid(h: Hashes, b: PlanBody, bin: seq<UnitFile>)
    requires Separate(bin) && WithinUnit(bin, b.limits)
    ensures ValidUnit(h, b, MakeUnit(h, b.snapshot, b.policy)(bin))
  {
    SortedUnit(bin);
    var u := UnitOf(h, b.snapshot, b.policy, bin);
    assert u.bytes == Bytes(bin) && u.anchorCount == Anchors(bin);
  }

  lemma {:induction false} UnitsValid(h: Hashes, b: PlanBody, bins: seq<seq<UnitFile>>)
    requires Separate(Flatten(bins))
    requires forall i :: 0 <= i < |bins| ==> WithinUnit(bins[i], b.limits)
    ensures forall u :: u in Map(MakeUnit(h, b.snapshot, b.policy), bins) ==> ValidUnit(h, b, u)
  {
    forall i | 0 <= i < |bins| ensures ValidUnit(h, b, MakeUnit(h, b.snapshot, b.policy)(bins[i])) {
      BinSeparate(bins, i);
      UnitValid(h, b, bins[i]);
    }
  }

  /** The units of a packing pass every check of the checker, but for a digest collision. */
  lemma UnitsReplay(h: Hashes, b: PlanBody, p: Packing)
    requires Separate(Flatten(p.bins)) && WithinLimits(p, b.limits)
    ensures var units := SortBy(ById, Map(MakeUnit(h, b.snapshot, b.policy), p.bins));
      && (ValidUnits(h, b, units) <==> DistinctIds(units)) && WithinTotals(b.limits, units)
      && multiset(AllFiles(units)) == multiset(Flatten(p.bins))
  {
    var made := Map(MakeUnit(h, b.snapshot, b.policy), p.bins);
    var units := SortBy(ById, made);
    UnitsValid(h, b, p.bins);
    SameElements(made, units);
    SortedById(made);
    IdsPermuted(made, units);
    SortedUnitsKeepFiles(h, b.snapshot, b.policy, p.bins);
    SeparatePermutation(Flatten(p.bins), AllFiles(units));
    SeparateIsClean(AllFiles(units));
    TotalsPermutation(Flatten(p.bins), AllFiles(units));
  }

  // ----- omissions and coverage

  /** New paths of packed and omitted files are all different. */
  ghost predicate PathsApart(files: seq<UnitFile>, omitted: seq<Omitted>) {
    && Distinct(Map(NewPath, files) + Map(OmittedNewPath, omitted))
    && forall o :: o in omitted ==> o.path.Sound()
  }

  lemma {:induction false} OmissionsReplay(files: seq<UnitFile>, omitted: seq<Omitted>)
    requires PathsApart(files, omitted)
    ensures ValidOmissions(files, SortBy(ByOmittedPath, omitted))
  {
    var sorted := SortBy(ByOmittedPath, omitted);
    DistinctParts(Map(NewPath, files), Map(OmittedNewPath, omitted));
    SameElements(omitted, sorted);
    MapPermutation(OmittedNewPath, omitted, sorted);
    DistinctPermutation(Map(OmittedNewPath, omitted), Map(OmittedNewPath, sorted));
    forall i, j | 0 <= i < j < |omitted| ensures omitted[i].path.newPath != omitted[j].path.newPath {
      assert Map(OmittedNewPath, omitted)[i] != Map(OmittedNewPath, omitted)[j];
    }
    PathOrder();
    forall x, y | x in omitted && y in omitted && x != y ensures ByOmittedPath(x, y) || ByOmittedPath(y, x) {
      var i :| 0 <= i < |omitted| && omitted[i] == x;
      var j :| 0 <= j < |omitted| && omitted[j] == y;
    }
    ByPathOrder();
    SortByStrict(ByOmittedPath, omitted);
    forall o | o in sorted ensures o.path.newPath !in NewPaths(files) {
      var i :| 0 <= i < |omitted| && omitted[i] == o;
      assert Map(OmittedNewPath, omitted)[i] == o.path.newPath;
      forall f | f in files ensures f.path.newPath != o.path.newPath {
        MemberMapped(files, f);
      }
    }
  }

  lemma PathsApartPermutation(a: seq<UnitFile>, b: seq<UnitFile>, omitted: seq<Omitted>)
    requires multiset(a) == multiset(b) && PathsApart(a, omitted)
    ensures PathsApart(b, omitted)
  {
    MapPermutation(NewPath, a, b);
    DistinctPermutation(Map(NewPath, a) + Map(OmittedNewPath, omitted), Map(NewPath, b) + Map(OmittedNewPath, omitted));
  }

  /** A packing the pipeline produces. */
  ghost predicate GoodPacking(p: Packing, l: Limits) {
    && WithinLimits(p, l)
    && Separate(Flatten(p.bins))
    && PathsApart(Flatten(p.bins), p.omitted)
    && p.files + |p.omitted| <= MAX_PLAN_FILES
  }

  lemma CoverageReplays(h: Hashes, snapshot: Snapshot, policy: Policy, l: Limits, p: Packing, files: seq<UnitFile>)
    requires WithinLimits(p, l) && p.files + |p.omitted| <= MAX_PLAN_FILES
    requires multiset(files) == multiset(Flatten(p.bins))
    ensures var b := Assemble(h, snapshot, policy, l, p).body; ExactCoverage(b.coverage, files, b.omitted)
  {
    TotalsPermutation(Flatten(p.bins), files);
    SameElements(p.omitted, SortBy(ByOmittedPath, p.omitted));
  }

  /** A good packing is assembled into a plan that replays, but for a digest collision. */
  lemma AssembledPlansReplay(h: Hashes, snapshot: Snapshot, policy: Policy, l: Limits, p: Packing)
    requires l.Valid() && ValidPolicy(policy) && SortedPolicy(policy)
    requires GoodPacking(p, l)
    ensures ValidPlan(h, Assemble(h, snapshot, policy, l, p)) <==> DistinctIds(Assemble(h, snapshot, policy, l, p).body.units)
  {
    var b := Assemble(h, snapshot, policy, l, p).body;
    UnitsReplay(h, b, p);
    var files := AllFiles(b.units);
    PathsApartPermutation(Flatten(p.bins), files, p.omitted);
    OmissionsReplay(files, p.omitted);
    CoverageReplays(h, snapshot, policy, l, p, files);
  }

  // ----- the pipeline

  /** All outcome paths of a packing. */
  function OutcomePaths(p: Packing): seq<ChangedPath> {
    Map(PathOf, Flatten(p.bins)) + Map(OmittedPath, p.omitted)
  }

  lemma PreparedDisjoint(files: seq<UnitFile>)
    requires DisjointAnchors(files)
    ensures DisjointElements(files)
  {
    forall x, y | x in files && y in files && x != y ensures SetOf(x.anchors) * SetOf(y.anchors) == {} {
      var i :| 0 <= i < |files| && files[i] == x;
      var j :| 0 <= j < |files| && files[j] == y;
      if i > j {
        assert SetOf(files[j].anchors) * SetOf(files[i].anchors) == {};
      }
    }
  }

  lemma {:induction false} NewPathsPermuted(a: seq<ChangedPath>, b: seq<ChangedPath>)
    requires multiset(a) == multiset(b) && Distinct(Map(NewPathOf, a))
    ensures Distinct(Map(NewPathOf, b)) && |a| == |b| && forall q :: q in a <==> q in b
  {
    SameElements(a, b);
    MapPermutation(NewPathOf, a, b);
    DistinctPermutation(Map(NewPathOf, a), Map(NewPathOf, b));
  }

  lemma {:induction false} InputsPermuted(a: seq<FileInput>, b: seq<FileInput>)
    requires multiset(a) == multiset(b) && ValidInputs(a)
    ensures ValidInputs(b) && |a| == |b|
    ensures multiset(Map(InputPath, b)) == multiset(Map(InputPath, a))
  {
    SameElements(a, b);
    MapPermutation(InputPath, a, b);
    NewPathsPermuted(Map(InputPath, a), Map(InputPath, b));
  }

  lemma InputsUntied(files: seq<FileInput>)
    requires ValidInputs(files)
    ensures Untied(ByInputPath, files)
  {
    PathOrder();
    var paths := Map(NewPathOf, Map(InputPath, files));
    forall x, y | x in files && y in files && x != y ensures ByInputPath(x, y) || ByInputPath(y, x) {
      var i :| 0 <= i < |files| && files[i] == x;
      var j :| 0 <= j < |files| && files[j] == y;
      assert paths[i] == x.path.newPath && paths[j] == y.path.newPath;
    }
  }

  /** Conservation over the whole pipeline: every input path has exactly one outcome, in a unit or
      among the omissions. */
  lemma {:induction false} PipelineConserves(sensitive: Sensitivity, policy: Policy, l: Limits, files: seq<FileInput>)
    requires l.Valid() && ValidInputs(files)
    ensures multiset(OutcomePaths(Pack(sensitive, policy, l, files))) == multiset(Map(InputPath, files))
  {
    var s := SortBy(ByInputPath, files);
    InputsPermuted(files, s);
    var prepared := PrepareAll(sensitive, policy, s);
    PreparationTallies(sensitive, policy, s);
    var ranked := SortBy(Preferred, prepared.included);
    MapPermutation(PathOf, prepared.included, ranked);
    PackingConserves(ranked, prepared.omitted, l);
  }

  /** Packed files are prepared files: valid, with anchors of their own. */
  lemma PipelineAdmits(sensitive: Sensitivity, policy: Policy, l: Limits, files: seq<FileInput>)
    requires l.Valid() && ValidInputs(files)
    ensures var packed := Flatten(Pack(sensitive, policy, l, files).bins);
      DisjointElements(packed) && forall f :: f in packed ==> ValidFile(f)
  {
    var s := SortBy(ByInputPath, files);
    InputsPermuted(files, s);
    var prepared := PrepareAll(sensitive, policy, s);
    PreparationAdmits(sensitive, policy, s);
    PreparedDisjoint(prepared.included);
    var ranked := SortBy(Preferred, prepared.included);
    SameElements(prepared.included, ranked);
    PackingSelects(ranked, prepared.omitted, l);
    var packed := Flatten(Pack(sensitive, policy, l, files).bins);
    forall f | f in packed ensures f in prepared.included {
      assert f in multiset(packed);
      assert f in multiset(ranked);
    }
  }

  lemma {:induction false} OutcomeNewPaths(files: seq<UnitFile>, omitted: seq<Omitted>)
    ensures Map(NewPathOf, Map(PathOf, files) + Map(OmittedPath, omitted)) == Map(NewPath, files) + Map(OmittedNewPath, omitted)
  {
    MapConcat(NewPathOf, Map(PathOf, files), Map(OmittedPath, omitted));
    assert Map(NewPathOf, Map(PathOf, files)) == Map(NewPath, files);
    assert Map(NewPathOf, Map(OmittedPath, omitted)) == Map(OmittedNewPath, omitted);
  }

  lemma {:induction false} OmittedSound(files: seq<UnitFile>, omitted: seq<Omitted>, outcomes: seq<ChangedPath>)
    requires outcomes == Map(PathOf, files) + Map(OmittedPath, omitted)
    requires forall q :: q in outcomes ==> q.Sound()
    ensures forall o :: o in omitted ==> o.path.Sound()
  {
    forall o | o in omitted ensures o.path.Sound() {
      var i :| 0 <= i < |omitted| && omitted[i] == o;
      assert outcomes[|files| + i] == o.path;
    }
  }

  lemma {:induction false} OutcomesApart(files: seq<UnitFile>, omitted: seq<Omitted>, outcomes: seq<ChangedPath>)
    requires outcomes == Map(PathOf, files) + Map(OmittedPath, omitted)
    requires Distinct(Map(NewPathOf, outcomes))
    ensures Distinct(Map(NewPath, files) + Map(OmittedNewPath, omitted))
  {
    OutcomeNewPaths(files, omitted);
  }

  lemma PipelinePacksWell(sensitive: Sensitivity, policy: Policy, l: Limits, files: seq<FileInput>)
    requires l.Valid() && ValidInputs(files) && |files| <= MAX_PLAN_FILES
    ensures GoodPacking(Pack(sensitive, policy, l, files), l)
  {
    var p := Pack(sensitive, policy, l, files);
    PipelineConserves(sensitive, policy, l, files);
    PipelineAdmits(sensitive, policy, l, files);
    forall q | q in Map(InputPath, files) ensures q.Sound() {
      var i :| 0 <= i < |files| && Map(InputPath, files)[i] == q;
      assert files[i] in files;
    }
    NewPathsPermuted(Map(InputPath, files), OutcomePaths(p));
    OmittedSound(Flatten(p.bins), p.omitted, OutcomePaths(p));
    OutcomesApart(Flatten(p.bins), p.omitted, OutcomePaths(p));
    DistinctParts(Map(NewPath, Flatten(p.bins)), Map(OmittedNewPath, p.omitted));
    var prepared := PrepareAll(sensitive, policy, SortBy(ByInputPath, files));
    PackingWithinLimits(SortBy(Preferred, prepared.included), prepared.omitted, l);
  }

  lemma {:induction false} PatternsSorted(patterns: seq<string>)
    requires ValidPatterns(patterns)
    ensures ValidPatterns(SortBy(Strings.Less, patterns)) && StrictlySorted(Strings.Less, SortBy(Strings.Less, patterns))
    ensures |SortBy(Strings.Less, patterns)| == |patterns|
  {
    Strings.LessIsStrictTotal();
    SameElements(patterns, SortBy(Strings.Less, patterns));
    DistinctPermutation(patterns, SortBy(Strings.Less, patterns));
    SortByStrict(Strings.Less, patterns);
  }

  lemma NormalizedPolicy(p: Policy)
    requires ValidPolicy(p)
    ensures ValidPolicy(Normalized(p)) && SortedPolicy(Normalized(p))
  {
    PatternsSorted(p.excludedPrefixes);
    PatternsSorted(p.excludedSuffixes);
    PatternsSorted(p.excludedBasenamePrefixes);
  }

  /** Builder and checker agree: a plan the builder assembles passes the replay validation if and only
      if no two of its work units share an identity. */
  lemma BuiltPlansReplay(h: Hashes, sensitive: Sensitivity, snapshot: Snapshot, policy: Policy, l: Limits, files: seq<FileInput>)
    requires Buildable(policy, l, files)
    ensures ValidPlan(h, PlanFor(h, sensitive, snapshot, policy, l, files))
      <==> DistinctIds(PlanFor(h, sensitive, snapshot, policy, l, files).body.units)
  {
    NormalizedPolicy(policy);
    PipelinePacksWell(sensitive, Normalized(policy), l, files);
    AssembledPlansReplay(h, snapshot, Normalized(policy), l, Pack(sensitive, Normalized(policy), l, files));
  }

  /** Two work units of a plan only share an identity when the digest collides on their files. */
  lemma OnlyCollisionsShareIds(h: Hashes, sensitive: Sensitivity, snapshot: Snapshot, policy: Policy, l: Limits, files: seq<FileInput>)
    requires Buildable(policy, l, files)
    requires CollisionFree(PlanFor(h, sensitive, snapshot, policy, l, files).body.units)
    ensures DistinctIds(PlanFor(h, sensitive, snapshot, policy, l, files).body.units)
  {
    PipelinePacksWell(sensitive, Normalized(policy), l, files);
    var p := Pack(sensitive, Normalized(policy), l, files);
    var made := Map(MakeUnit(h, snapshot, Normalized(policy)), p.bins);
    SameElements(made, SortBy(ById, made));
    CollisionFreeIds(h, snapshot, Normalized(policy), p.bins);
    IdsPermuted(made, SortBy(ById, made));
  }

  /** The plan does not depend on the order in which the files arrive. */
  lemma BuildingIgnoresOrder(h: Hashes, sensitive: Sensitivity, snapshot: Snapshot, policy: Policy, l: Limits, a: seq<FileInput>, b: seq<FileInput>)
    requires multiset(a) == multiset(b) && Buildable(policy, l, a)
    ensures Buildable(policy, l, b)
    ensures PlanFor(h, sensitive, snapshot, policy, l, a) == PlanFor(h, sensitive, snapshot, policy, l, b)
  {
    InputsPermuted(a, b);
    InputsUntied(a);
    ByPathOrder();
    SortByPermutation(ByInputPath, a, b);
  }
}
