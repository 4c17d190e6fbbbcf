/** The replay validator of partition plans, and the builder that calls it
    (crates/revoot-core/src/partition.rs, lines 678-787, 851-917, 1068-1127 and 1254-1312). */
module PartitionReplay {
  import opened Wrappers
  import opened Sorting
  import opened Sequences
  import opened Words
  import opened ChangedPaths
  import opened PartitionInputs
  import opened PartitionPacking
  import opened PartitionPlans
  import Strings

  // ----- files of one unit

  /** What the file loop has established about the files it has passed. */
  ghost predicate FilesPassed(before: seq<UnitFile>, files: seq<UnitFile>) {
    files == [] ||
    (var f, rest := files[|files| - 1], files[..|files| - 1];
     && FilesPassed(before, rest)
     && FilePasses(before + rest, rest, f)
     && Bytes(files) <= U64_MAX && Anchors(files) <= U32_MAX)
  }

  ghost predicate FilePasses(seen: seq<UnitFile>, rest: seq<UnitFile>, f: UnitFile) {
    && ValidFile(f)
    && (rest != [] ==> ByPath(rest[|rest| - 1], f))
    && f.path.newPath !in NewPaths(seen)
    && SetOf(f.anchors) * AnchorSet(seen) == {}
  }

  lemma {:induction false} FilesPassedExactly(before: seq<UnitFile>, files: seq<UnitFile>)
    requires Clean(before)
    ensures FilesPassed(before, files) <==>
      ValidUnitFiles(files) && Clean(before + files) && Bytes(files) <= U64_MAX && Anchors(files) <= U32_MAX
  {
    if files == [] {
      assert before + files == before;
    } else {
      var n := |files| - 1;
      var f, rest := files[n], files[..n];
      FilesPassedExactly(before, rest);
      assert (before + files)[..|before + files| - 1] == before + rest;
      assert files == rest + [f];
      StrictSnoc(rest, f);
    }
  }

  lemma StrictSnoc(rest: seq<UnitFile>, f: UnitFile)
    ensures StrictlySorted(ByPath, rest + [f]) <==>
      StrictlySorted(ByPath, rest) && (rest != [] ==> ByPath(rest[|rest| - 1], f))
  {
    PathOrder();
    var all, n := rest + [f], |rest|;
    if StrictlySorted(ByPath, all) {
      assert forall i :: 0 <= i < n ==> all[i] == rest[i];
      assert n > 0 ==> all[n - 1] == rest[n - 1] && all[n] == f;
    }
    if StrictlySorted(ByPath, rest) && (n > 0 ==> ByPath(rest[n - 1], f)) {
      forall i, j | 0 <= i < j < |all| ensures ByPath(all[i], all[j]) {
        if j == n && i < n - 1 {
          assert ByPath(rest[i], rest[n - 1]);
        }
      }
    }
  }

  lemma SetsSnoc(seen: seq<UnitFile>, f: UnitFile)
    ensures NewPaths(seen + [f]) == NewPaths(seen) + {f.path.newPath}
    ensures AnchorSet(seen + [f]) == AnchorSet(seen) + SetOf(f.anchors)
  {
    assert forall x :: x in seen + [f] <==> x in seen || x == f;
    forall a ensures a in AnchorSet(seen + [f]) <==> a in AnchorSet(seen) + SetOf(f.anchors) {
      if a in SetOf(f.anchors) {
        assert f in seen + [f];
      }
    }
  }

  /** `e` is the first check that a file fails. */
  ghost predicate FileRefused(f: UnitFile, previous: Option<UnitFile>, paths: set<string>, anchors: set<string>, e: ReplayError) {
    if previous.Some? && !ByPath(previous.value, f) then e == FileOrder
    else if !f.path.Sound() || f.path.newPath in paths then e == DuplicatePath
    else if !f.value.Valid() || f.objects == [] || !HasExactDiff(f.objects) then e == DerivedCount
    else if !StrictlySorted(ObjectLess, f.objects) then e == ObjectOrderError
    else if !StrictlySorted(Strings.Less, f.anchors) then e == AnchorOrder
    else if SetOf(f.anchors) * anchors != {} then e == DuplicateAnchorId
    else TotalBytes(f.objects) != f.bytes && e == DerivedCount
  }

  /** The checks of one file of a unit. */
  method ValidateFile(f: UnitFile, previous: Option<UnitFile>, paths: set<string>, anchors: set<string>) returns (e: Option<ReplayError>)
    ensures e.None? <==>
      && ValidFile(f)
      && (previous.Some? ==> ByPath(previous.value, f))
      && f.path.newPath !in paths
      && SetOf(f.anchors) * anchors == {}
    ensures e.Some? ==> FileRefused(f, previous, paths, anchors, e.value)
  {
    if previous.Some? && !ByPath(previous.value, f) {
      return Some(FileOrder);
    }
    if !f.path.Sound() || f.path.newPath in paths {
      return Some(DuplicatePath);
    }
    if !f.value.Valid() || f.objects == [] || !HasExactDiff(f.objects) {
      return Some(DerivedCount);
    }
    ObjectOrder();
    Strings.LessIsStrictTotal();
    StrictExactly(ObjectLess, f.objects);
    StrictExactly(Strings.Less, f.anchors);
    if exists i :: 0 <= i < |f.objects| - 1 && !ObjectLess(f.objects[i], f.objects[i + 1]) {
      return Some(ObjectOrderError);
    }
    if exists i :: 0 <= i < |f.anchors| - 1 && !Strings.Less(f.anchors[i], f.anchors[i + 1]) {
      return Some(AnchorOrder);
    }
    if SetOf(f.anchors) * anchors != {} {
      return Some(DuplicateAnchorId);
    }
    if CheckedTotal(f.objects) != Some(f.bytes) {
      return Some(DerivedCount);
    }
    return None;
  }

  lemma {:induction false} StrictExactly<T(!new)>(lt: (T, T) -> bool, s: seq<T>)
    requires StrictTotal(lt)
    ensures StrictlySorted(lt, s) <==> forall i :: 0 <= i < |s| - 1 ==> lt(s[i], s[i + 1])
  {
    if |s| >= 2 {
      var n := |s| - 1;
      StrictExactly(lt, s[..n]);
      if forall i :: 0 <= i < n ==> lt(s[i], s[i + 1]) {
        forall i | 0 <= i < n - 1 ensures lt(s[..n][i], s[..n][i + 1]) {
        }
        forall i, j | 0 <= i < j < |s| ensures lt(s[i], s[j]) {
          if j < n {
            assert s[..n][i] == s[i] && s[..n][j] == s[j];
          } else if i < n - 1 {
            assert s[..n][i] == s[i] && s[..n][n - 1] == s[n - 1];
            assert lt(s[n - 1], s[n - 1 + 1]);
          }
        }
      }
    }
  }

  lemma {:induction false} FilesPassedPrefix(before: seq<UnitFile>, files: seq<UnitFile>, k: nat)
    requires FilesPassed(before, files) && k <= |files|
    ensures FilesPassed(before, files[..k])
  {
    if k == |files| {
      assert files[..k] == files;
    } else {
      FilesPassedPrefix(before, files[..|files| - 1], k);
      assert files[..|files| - 1][..k] == files[..k];
    }
  }

  lemma {:induction false} FileStopsAll(before: seq<UnitFile>, files: seq<UnitFile>, i: nat)
    requires i < |files| && !FilesPassed(before, files[..i + 1])
    ensures !FilesPassed(before, files)
  {
    if FilesPassed(before, files) {
      FilesPassedPrefix(before, files, i + 1);
    }
  }

  datatype UnitTotals = UnitTotals(bytes: u64, anchorCount: u32, paths: set<string>, anchors: set<string>)

  ghost function TotalsOf(before: seq<UnitFile>, files: seq<UnitFile>): UnitTotals
    requires Bytes(files) <= U64_MAX && Anchors(files) <= U32_MAX
  {
    UnitTotals(Bytes(files), Anchors(files), NewPaths(before + files), AnchorSet(before + files))
  }

  /** Behind the files `rest` of a unit, `f` stops the loop with `e`. */
  ghost predicate FileStops(before: seq<UnitFile>, rest: seq<UnitFile>, f: UnitFile, e: ReplayError) {
    var seen, previous := before + rest, if rest == [] then None else Some(rest[|rest| - 1]);
    || FileRefused(f, previous, NewPaths(seen), AnchorSet(seen), e)
    || (e == DerivedCount && FilePasses(seen, rest, f) && !(Bytes(rest + [f]) <= U64_MAX && Anchors(rest + [f]) <= U32_MAX))
  }

  /** Some file of a unit stops the loop with `e`. */
  ghost predicate FilesRefused(before: seq<UnitFile>, files: seq<UnitFile>, e: ReplayError) {
    exists i :: 0 <= i < |files| && FilesPassed(before, files[..i]) && FileStops(before, files[..i], files[i], e)
  }

  /** One round of the file loop. */
  method PassFile(ghost before: seq<UnitFile>, files: seq<UnitFile>, i: nat, t: UnitTotals) returns (r: Result<UnitTotals, ReplayError>)
    requires i < |files| && FilesPassed(before, files[..i])
    requires Bytes(files[..i]) <= U64_MAX && Anchors(files[..i]) <= U32_MAX && t == TotalsOf(before, files[..i])
    ensures r.Success? <==> FilesPassed(before, files[..i + 1])
    ensures r.Success? ==> r.value == TotalsOf(before, files[..i + 1])
    ensures r.Failure? ==> FileStops(before, files[..i], files[i], r.error)
  {
    var f := files[i];
    var previous := if i == 0 then None else Some(files[i - 1]);
    var e := ValidateFile(f, previous, t.paths, t.anchors);
    assert files[..i + 1][..i] == files[..i];
    assert e.None? <==> FilePasses(before + files[..i], files[..i], f);
    if e.Some? {
      return Failure(e.value);
    }
    assert files[..i + 1] == files[..i] + [f];
    if t.bytes + f.bytes > U64_MAX || t.anchorCount + |f.anchors| > U32_MAX {
      return Failure(DerivedCount);
    }
    SetsSnoc(before + files[..i], f);
    assert before + files[..i + 1] == (before + files[..i]) + [f];
    return Success(UnitTotals(t.bytes + f.bytes, t.anchorCount + |f.anchors|, t.paths + {f.path.newPath}, t.anchors + SetOf(f.anchors)));
  }

  /** `validate_unit_files`. */
  method ValidateUnitFiles(ghost before: seq<UnitFile>, files: seq<UnitFile>, paths: set<string>, anchors: set<string>)
    returns (r: Result<UnitTotals, ReplayError>)
    requires paths == NewPaths(before) && anchors == AnchorSet(before)
    ensures r.Success? <==> FilesPassed(before, files)
    ensures r.Success? ==> Bytes(files) <= U64_MAX && Anchors(files) <= U32_MAX && r.value == TotalsOf(before, files)
    ensures r.Failure? ==> FilesRefused(before, files, r.error)
  {
    var t := UnitTotals(0, 0, paths, anchors);
    assert before + files[..0] == before;
    for i := 0 to |files|
      invariant FilesPassed(before, files[..i])
      invariant Bytes(files[..i]) <= U64_MAX && Anchors(files[..i]) <= U32_MAX && t == TotalsOf(before, files[..i])
    {
      var step := PassFile(before, files, i, t);
      if step.Failure? {
        FileStopsAll(before, files, i);
        return step;
      }
      t := step.value;
    }
    assert files[..|files|] == files;
    return Success(t);
  }

  // ----- units

  ghost predicate UnitPasses(h: Hashes, b: PlanBody, rest: seq<WorkUnit>, u: WorkUnit) {
    && (rest != [] ==> ById(rest[|rest| - 1], u))
    && FilesPassed(AllFiles(rest), u.files)
    && ValidUnit(h, b, u)
  }

  ghost predicate TotalsFit(units: seq<WorkUnit>) {
    |AllFiles(units)| <= U32_MAX && Bytes(AllFiles(units)) <= U64_MAX && LowBytes(AllFiles(units)) <= U64_MAX
  }

  /** What the unit loop has established about the units it has passed. */
  ghost predicate UnitsPassed(h: Hashes, b: PlanBody, units: seq<WorkUnit>) {
    units == [] ||
    (var u, rest := units[|units| - 1], units[..|units| - 1];
     UnitsPassed(h, b, rest) && UnitPasses(h, b, rest, u) && TotalsFit(units))
  }

  lemma IdsSnoc(rest: seq<WorkUnit>, u: WorkUnit)
    ensures StrictlySorted(ById, rest + [u]) <==>
      StrictlySorted(ById, rest) && (rest != [] ==> ById(rest[|rest| - 1], u))
  {
    Strings.LessIsTotalOrder();
    var all, n := rest + [u], |rest|;
    if StrictlySorted(ById, all) {
      assert forall i :: 0 <= i < n ==> all[i] == rest[i];
      assert n > 0 ==> all[n - 1] == rest[n - 1] && all[n] == u;
    }
    if StrictlySorted(ById, rest) && (n > 0 ==> ById(rest[n - 1], u)) {
      forall i, j | 0 <= i < j < |all| ensures ById(all[i], all[j]) {
        if j == n && i < n - 1 {
          assert ById(rest[i], rest[n - 1]);
        }
      }
    }
  }

  lemma {:induction false} CleanPrefix(a: seq<UnitFile>, b: seq<UnitFile>)
    requires Clean(a + b)
    ensures Clean(a)
  {
    if b == [] {
      assert a + b == a;
    } else {
      assert (a + b)[..|a + b| - 1] == a + b[..|b| - 1];
      CleanPrefix(a, b[..|b| - 1]);
    }
  }

  lemma UnitsPassedStep(h: Hashes, b: PlanBody, rest: seq<WorkUnit>, u: WorkUnit)
    requires ValidUnits(h, b, rest)
    ensures ValidUnits(h, b, rest + [u]) <==> UnitPasses(h, b, rest, u)
  {
    AllFilesSnoc(rest, u);
    IdsSnoc(rest, u);
    FilesPassedExactly(AllFiles(rest), u.files);
    MembersSnoc(rest, u);
    if ValidUnits(h, b, rest + [u]) {
      var bytes: u64, anchorCount: u32 := u.bytes, u.anchorCount;
      assert ValidUnit(h, b, u);
      assert Bytes(u.files) == bytes && Anchors(u.files) == anchorCount;
    }
  }

  lemma MembersSnoc<T>(rest: seq<T>, u: T)
    ensures forall x :: x in rest + [u] <==> x in rest || x == u
    ensures u in rest + [u]
  {
    assert (rest + [u])[|rest|] == u;
  }

  lemma ValidUnitsPrefix(h: Hashes, b: PlanBody, rest: seq<WorkUnit>, u: WorkUnit)
    requires ValidUnits(h, b, rest + [u])
    ensures ValidUnits(h, b, rest)
  {
    AllFilesSnoc(rest, u);
    IdsSnoc(rest, u);
    CleanPrefix(AllFiles(rest), u.files);
    assert forall x :: x in rest ==> x in rest + [u];
  }

  lemma {:induction false} UnitsPassedExactly(h: Hashes, b: PlanBody, units: seq<WorkUnit>)
    ensures UnitsPassed(h, b, units) ==> ValidUnits(h, b, units) && TotalsFit(units)
    ensures ValidUnits(h, b, units) && TotalsFit(units) ==> UnitsPassed(h, b, units)
  {
    if units == [] {
      assert AllFiles(units) == [];
    } else {
      var n := |units| - 1;
      var rest, u := units[..n], units[n];
      assert units == rest + [u];
      UnitsPassedExactly(h, b, rest);
      AllFilesSnoc(rest, u);
      TotalsConcat(AllFiles(rest), u.files);
      if ValidUnits(h, b, units) {
        ValidUnitsPrefix(h, b, rest, u);
        UnitsPassedStep(h, b, rest, u);
      } else if UnitsPassed(h, b, units) {
        UnitsPassedStep(h, b, rest, u);
      }
    }
  }

  lemma {:induction false} UnitsPassedPrefix(h: Hashes, b: PlanBody, units: seq<WorkUnit>, k: nat)
    requires UnitsPassed(h, b, units) && k <= |units|
    ensures UnitsPassed(h, b, units[..k])
  {
    if k == |units| {
      assert units[..k] == units;
    } else {
      UnitsPassedPrefix(h, b, units[..|units| - 1], k);
      assert units[..|units| - 1][..k] == units[..k];
    }
  }

  datatype PlanTotals = PlanTotals(files: u32, bytes: u64, lowBytes: u64, paths: set<string>, anchors: set<string>)

  ghost function PlanTotalsOf(units: seq<WorkUnit>): PlanTotals
    requires TotalsFit(units)
  {
    var files := AllFiles(units);
    PlanTotals(|files|, Bytes(files), LowBytes(files), NewPaths(files), AnchorSet(files))
  }

  /** `e` is the first check that a unit fails. */
  ghost predicate UnitRefused(h: Hashes, b: PlanBody, rest: seq<WorkUnit>, u: WorkUnit, e: ReplayError) {
    if rest != [] && !ById(rest[|rest| - 1], u) then e == WorkUnitOrder
    else if !FilesPassed(AllFiles(rest), u.files) then FilesRefused(AllFiles(rest), u.files, e)
    else if Bytes(u.files) != u.bytes || Anchors(u.files) != u.anchorCount then e == DerivedCount
    else if |u.files| > b.limits.maxFilesPerUnit || u.bytes > b.limits.maxBytesPerUnit || u.anchorCount > b.limits.maxAnchorsPerUnit then
      e == LimitExceeded
    else h.unit(b.snapshot, b.policy, u.files) != u.id && e == WorkUnitId
  }

  /** Behind the units `rest`, `u` stops the loop with `e`. */
  ghost predicate UnitStopsWith(h: Hashes, b: PlanBody, rest: seq<WorkUnit>, u: WorkUnit, e: ReplayError) {
    || UnitRefused(h, b, rest, u, e)
    || (e == DerivedCount && UnitPasses(h, b, rest, u) && !TotalsFit(rest + [u]))
  }

  ghost predicate UnitsRefused(h: Hashes, b: PlanBody, units: seq<WorkUnit>, e: ReplayError) {
    exists i :: 0 <= i < |units| && UnitsPassed(h, b, units[..i]) && UnitStopsWith(h, b, units[..i], units[i], e)
  }

  /** The checks of one unit. */
  method ValidateUnit(h: Hashes, b: PlanBody, u: WorkUnit, ghost rest: seq<WorkUnit>, previous: Option<WorkUnit>, paths: set<string>, anchors: set<string>)
    returns (r: Result<UnitTotals, ReplayError>)
    requires previous == if rest == [] then None else Some(rest[|rest| - 1])
    requires paths == NewPaths(AllFiles(rest)) && anchors == AnchorSet(AllFiles(rest))
    requires Clean(AllFiles(rest))
    ensures r.Success? <==> UnitPasses(h, b, rest, u)
    ensures r.Success? ==> Bytes(u.files) <= U64_MAX && Anchors(u.files) <= U32_MAX && r.value == TotalsOf(AllFiles(rest), u.files)
    ensures r.Failure? ==> UnitRefused(h, b, rest, u, r.error)
  {
    if previous.Some? && !ById(previous.value, u) {
      return Failure(WorkUnitOrder);
    }
    FilesPassedExactly(AllFiles(rest), u.files);
    r := ValidateUnitFiles(AllFiles(rest), u.files, paths, anchors);
    if r.Failure? {
      return;
    }
    if r.value.bytes != u.bytes || r.value.anchorCount != u.anchorCount {
      return Failure(DerivedCount);
    }
    if |u.files| > b.limits.maxFilesPerUnit || u.bytes > b.limits.maxBytesPerUnit || u.anchorCount > b.limits.maxAnchorsPerUnit {
      return Failure(LimitExceeded);
    }
    if h.unit(b.snapshot, b.policy, u.files) != u.id {
      return Failure(WorkUnitId);
    }
  }

  lemma TotalsSnoc(rest: seq<WorkUnit>, u: WorkUnit)
    ensures AllFiles(rest + [u]) == AllFiles(rest) + u.files
    ensures |AllFiles(rest + [u])| == |AllFiles(rest)| + |u.files|
    ensures Bytes(AllFiles(rest + [u])) == Bytes(AllFiles(rest)) + Bytes(u.files)
    ensures LowBytes(AllFiles(rest + [u])) == LowBytes(AllFiles(rest)) + LowBytes(u.files)
  {
    AllFilesSnoc(rest, u);
    TotalsConcat(AllFiles(rest), u.files);
  }

  lemma {:induction false} UnitsPassedSnoc(h: Hashes, b: PlanBody, rest: seq<WorkUnit>, u: WorkUnit)
    requires UnitsPassed(h, b, rest)
    ensures UnitsPassed(h, b, rest + [u]) <==> UnitPasses(h, b, rest, u) && TotalsFit(rest + [u])
  {
    assert (rest + [u])[..|rest + [u]| - 1] == rest;
  }

  /** The totals with one more unit. */
  lemma PlanTotalsSnoc(rest: seq<WorkUnit>, u: WorkUnit, t: PlanTotals, step: UnitTotals)
    requires TotalsFit(rest) && t == PlanTotalsOf(rest)
    requires Bytes(u.files) <= U64_MAX && Anchors(u.files) <= U32_MAX && step == TotalsOf(AllFiles(rest), u.files)
    ensures TotalsFit(rest + [u]) <==>
      t.files + |u.files| <= U32_MAX && t.bytes + step.bytes <= U64_MAX && t.lowBytes + LowBytes(u.files) <= U64_MAX
    ensures TotalsFit(rest + [u]) ==>
      PlanTotalsOf(rest + [u]) == PlanTotals(t.files + |u.files|, t.bytes + step.bytes, t.lowBytes + LowBytes(u.files), step.paths, step.anchors)
  {
    TotalsSnoc(rest, u);
  }

  /** One round of the unit loop. */
  method PassUnit(h: Hashes, b: PlanBody, u: WorkUnit, previous: Option<WorkUnit>, ghost rest: seq<WorkUnit>, t: PlanTotals)
    returns (r: Result<PlanTotals, ReplayError>)
    requires UnitsPassed(h, b, rest) && TotalsFit(rest) && t == PlanTotalsOf(rest)
    requires previous == if rest == [] then None else Some(rest[|rest| - 1])
    ensures r.Success? <==> UnitsPassed(h, b, rest + [u])
    ensures r.Success? ==> TotalsFit(rest + [u]) && r.value == PlanTotalsOf(rest + [u])
    ensures r.Failure? ==> UnitStopsWith(h, b, rest, u, r.error)
  {
    UnitsPassedExactly(h, b, rest);
    UnitsPassedSnoc(h, b, rest, u);
    var step := ValidateUnit(h, b, u, rest, previous, t.paths, t.anchors);
    if step.Failure? {
      return Failure(step.error);
    }
    PlanTotalsSnoc(rest, u, t, step.value);
    var low := LowBytes(u.files);
    if t.files + |u.files| > U32_MAX || t.bytes + step.value.bytes > U64_MAX || t.lowBytes + low > U64_MAX {
      return Failure(DerivedCount);
    }
    return Success(PlanTotals(t.files + |u.files|, t.bytes + step.value.bytes, t.lowBytes + low, step.value.paths, step.value.anchors));
  }

  lemma PrefixSnoc<T>(s: seq<T>, i: nat)
    requires i < |s|
    ensures s[..i + 1] == s[..i] + [s[i]]
  {
  }

  /** A unit that does not pass stops the loop for good. */
  lemma {:induction false} UnitStops(h: Hashes, b: PlanBody, units: seq<WorkUnit>, i: nat)
    requires i < |units| && !UnitsPassed(h, b, units[..i] + [units[i]])
    ensures !UnitsPassed(h, b, units)
  {
    PrefixSnoc(units, i);
    if UnitsPassed(h, b, units) {
      UnitsPassedPrefix(h, b, units, i + 1);
    }
  }

  method ValidateUnits(h: Hashes, b: PlanBody) returns (r: Result<PlanTotals, ReplayError>)
    ensures r.Success? <==> UnitsPassed(h, b, b.units)
    ensures r.Success? ==> TotalsFit(b.units) && r.value == PlanTotalsOf(b.units)
    ensures r.Failure? ==> UnitsRefused(h, b, b.units, r.error)
  {
    var t := PlanTotals(0, 0, 0, {}, {});
    assert Map(FilesOf, b.units[..0]) == [];
    for i := 0 to |b.units|
      invariant UnitsPassed(h, b, b.units[..i]) && TotalsFit(b.units[..i]) && t == PlanTotalsOf(b.units[..i])
    {
      ghost var before := b.units[..i];
      var previous := if i == 0 then None else Some(b.units[i - 1]);
      r := PassUnit(h, b, b.units[i], previous, before, t);
      if r.Failure? {
        UnitStops(h, b, b.units, i);
        return;
      }
      PrefixSnoc(b.units, i);
      t := r.value;
    }
    assert b.units[..|b.units|] == b.units;
    return Success(t);
  }

  // ----- omissions

  /** What the omission loop has established. */
  ghost predicate OmissionsPassed(files: seq<UnitFile>, omitted: seq<Omitted>) {
    omitted == [] ||
    (var o, rest := omitted[|omitted| - 1], omitted[..|omitted| - 1];
     && OmissionsPassed(files, rest)
     && (rest != [] ==> ByOmittedPath(rest[|rest| - 1], o))
     && o.path.Sound()
     && o.path.newPath !in NewPaths(files) + OmittedPaths(rest))
  }

  ghost function OmittedPaths(omitted: seq<Omitted>): set<string> {
    set o | o in omitted :: o.path.newPath
  }

  lemma OmittedSnoc(rest: seq<Omitted>, o: Omitted)
    ensures StrictlySorted(ByOmittedPath, rest + [o]) <==>
      StrictlySorted(ByOmittedPath, rest) && (rest != [] ==> ByOmittedPath(rest[|rest| - 1], o))
  {
    PathOrder();
    var all, n := rest + [o], |rest|;
    if StrictlySorted(ByOmittedPath, all) {
      assert forall i :: 0 <= i < n ==> all[i] == rest[i];
      assert n > 0 ==> all[n - 1] == rest[n - 1] && all[n] == o;
    }
    if StrictlySorted(ByOmittedPath, rest) && (n > 0 ==> ByOmittedPath(rest[n - 1], o)) {
      forall i, j | 0 <= i < j < |all| ensures ByOmittedPath(all[i], all[j]) {
        if j == n && i < n - 1 {
          assert ByOmittedPath(rest[i], rest[n - 1]);
        }
      }
    }
  }

  lemma {:induction false} OmittedPathsDistinct(rest: seq<Omitted>, o: Omitted)
    ensures Distinct(Map(OmittedNewPath, rest + [o])) <==>
      Distinct(Map(OmittedNewPath, rest)) && o.path.newPath !in OmittedPaths(rest)
  {
    var a, all := Map(OmittedNewPath, rest), Map(OmittedNewPath, rest + [o]);
    MapConcat(OmittedNewPath, rest, [o]);
    assert all == a + [o.path.newPath];
    if Distinct(all) {
      assert forall i :: 0 <= i < |a| ==> all[i] == a[i];
      forall x | x in rest ensures x.path.newPath != o.path.newPath {
        var i :| 0 <= i < |rest| && rest[i] == x;
        assert all[i] == x.path.newPath && all[|a|] == o.path.newPath;
      }
    }
    if Distinct(a) && o.path.newPath !in OmittedPaths(rest) {
      forall i | 0 <= i < |a| ensures a[i] != o.path.newPath {
        assert rest[i] in rest;
      }
    }
  }

  lemma OmissionsStep(files: seq<UnitFile>, rest: seq<Omitted>, o: Omitted)
    ensures ValidOmissions(files, rest + [o]) <==>
      && ValidOmissions(files, rest)
      && (rest != [] ==> ByOmittedPath(rest[|rest| - 1], o))
      && o.path.Sound()
      && o.path.newPath !in NewPaths(files) + OmittedPaths(rest)
  {
    OmittedSnoc(rest, o);
    OmittedPathsDistinct(rest, o);
    MembersSnoc(rest, o);
  }

  lemma {:induction false} OmissionsPassedExactly(files: seq<UnitFile>, omitted: seq<Omitted>)
    ensures OmissionsPassed(files, omitted) <==> ValidOmissions(files, omitted)
  {
    if omitted != [] {
      var n := |omitted| - 1;
      var rest, o := omitted[..n], omitted[n];
      assert omitted == rest + [o];
      OmissionsPassedExactly(files, rest);
      OmissionsStep(files, rest, o);
    }
  }

  lemma {:induction false} OmissionsPassedPrefix(files: seq<UnitFile>, omitted: seq<Omitted>, k: nat)
    requires OmissionsPassed(files, omitted) && k <= |omitted|
    ensures OmissionsPassed(files, omitted[..k])
  {
    if k == |omitted| {
      assert omitted[..k] == omitted;
    } else {
      OmissionsPassedPrefix(files, omitted[..|omitted| - 1], k);
      assert omitted[..|omitted| - 1][..k] == omitted[..k];
    }
  }

  lemma {:induction false} CountSnoc(rest: seq<Omitted>, o: Omitted)
    ensures CountReasons(rest + [o])
         == CountReasons(rest)[o.reason := (if o.reason in CountReasons(rest) then CountReasons(rest)[o.reason] else 0) + 1]
    ensures OmittedPaths(rest + [o]) == OmittedPaths(rest) + {o.path.newPath}
  {
    assert (rest + [o])[..|rest + [o]| - 1] == rest;
    MembersSnoc(rest, o);
  }

  lemma {:induction false} OmissionsPassedSnoc(files: seq<UnitFile>, rest: seq<Omitted>, o: Omitted)
    ensures OmissionsPassed(files, rest + [o]) <==>
      && OmissionsPassed(files, rest)
      && (rest != [] ==> ByOmittedPath(rest[|rest| - 1], o))
      && o.path.Sound()
      && o.path.newPath !in NewPaths(files) + OmittedPaths(rest)
  {
    assert (rest + [o])[..|rest + [o]| - 1] == rest;
  }

  lemma {:induction false} OmissionStops(files: seq<UnitFile>, omitted: seq<Omitted>, i: nat)
    requires i < |omitted| && !OmissionsPassed(files, omitted[..i + 1])
    ensures !OmissionsPassed(files, omitted)
  {
    if OmissionsPassed(files, omitted) {
      OmissionsPassedPrefix(files, omitted, i + 1);
    }
  }

  /** `e` is the first check that an omission fails. */
  ghost predicate OmissionRefused(files: seq<UnitFile>, rest: seq<Omitted>, o: Omitted, e: ReplayError) {
    if rest != [] && !ByOmittedPath(rest[|rest| - 1], o) then e == OmissionOrder
    else (!o.path.Sound() || o.path.newPath in NewPaths(files) || o.path.newPath in OmittedPaths(rest)) && e == DuplicatePath
  }

  ghost predicate OmissionsRefused(files: seq<UnitFile>, omitted: seq<Omitted>, e: ReplayError) {
    exists i :: 0 <= i < |omitted| && OmissionsPassed(files, omitted[..i]) && OmissionRefused(files, omitted[..i], omitted[i], e)
  }

  method ValidateOmissions(ghost files: seq<UnitFile>, omitted: seq<Omitted>, included: set<string>)
    returns (r: Result<map<OmissionReason, nat>, ReplayError>)
    requires included == NewPaths(files)
    ensures r.Success? <==> OmissionsPassed(files, omitted)
    ensures r.Success? ==> r.value == CountReasons(omitted)
    ensures r.Failure? ==> OmissionsRefused(files, omitted, r.error)
  {
    var paths := included;
    var reasons: map<OmissionReason, nat> := map[];
    for i := 0 to |omitted|
      invariant OmissionsPassed(files, omitted[..i])
      invariant paths == NewPaths(files) + OmittedPaths(omitted[..i])
      invariant reasons == CountReasons(omitted[..i])
    {
      var o := omitted[i];
      assert omitted[..i + 1] == omitted[..i] + [o];
      OmissionsPassedSnoc(files, omitted[..i], o);
      CountSnoc(omitted[..i], o);
      var bad := if i > 0 && !ByOmittedPath(omitted[i - 1], o) then Some(OmissionOrder)
                 else if !o.path.Sound() || o.path.newPath in paths then Some(DuplicatePath)
                 else None;
      if bad.Some? {
        OmissionStops(files, omitted, i);
        assert OmissionRefused(files, omitted[..i], o, bad.value);
        return Failure(bad.value);
      }
      paths := paths + {o.path.newPath};
      reasons := reasons[o.reason := (if o.reason in reasons then reasons[o.reason] else 0) + 1];
    }
    assert omitted[..|omitted|] == omitted;
    return Success(reasons);
  }

  // ----- the whole plan

  lemma StrictPatterns(s: seq<string>)
    ensures StrictlySorted(Strings.Less, s) <==> forall i :: 0 <= i < |s| - 1 ==> Strings.Less(s[i], s[i + 1])
  {
    Strings.LessIsStrictTotal();
    StrictExactly(Strings.Less, s);
  }

  predicate AdjacentIncreasing(s: seq<string>) {
    forall i :: 0 <= i < |s| - 1 ==> Strings.Less(s[i], s[i + 1])
  }

  /** Why the replay of the units, the omissions and the coverage fails. */
  ghost predicate BodyRefused(h: Hashes, b: PlanBody, e: ReplayError) {
    var files := AllFiles(b.units);
    if !(ValidUnits(h, b, b.units) && TotalsFit(b.units)) then UnitsRefused(h, b, b.units, e)
    else if !WithinTotals(b.limits, b.units) then e == LimitExceeded
    else if !ValidOmissions(files, b.omitted) then OmissionsRefused(files, b.omitted, e)
    else if |files| + |b.omitted| > U32_MAX then e == DerivedCount
    else !ExactCoverage(b.coverage, files, b.omitted) && e == CoverageError
  }

  /** Why the replay of a plan fails. */
  ghost predicate PlanRefused(h: Hashes, p: Plan, e: ReplayError) {
    var b := p.body;
    if b.schema != "revoot.partition-plan/v3" then e == SchemaVersion
    else if !b.limits.Valid() then LimitsRefused(b.limits, e)
    else if !ValidPolicy(b.policy) then PolicyRefused(b.policy, e)
    else if !SortedPolicy(b.policy) then e == ReplayError.Configuration(Pattern)
    else BodyRefused(h, b, e) || (e == PlanDigest && p.digest != h.plan(b))
  }

  ghost predicate LimitsRefused(l: Limits, e: ReplayError) {
    e.Configuration? && FirstBadLimit(l, e.error)
  }

  ghost predicate PolicyRefused(p: Policy, e: ReplayError) {
    e.Configuration? && FirstBadRule(p, e.error)
  }

  /** `validate_replay` accepts exactly the valid plans. */
  method ValidateReplay(h: Hashes, p: Plan) returns (e: Option<ReplayError>)
    ensures e.None? <==> ValidPlan(h, p)
    ensures e.Some? ==> PlanRefused(h, p, e.value)
  {
    var b := p.body;
    if b.schema != PLAN_SCHEMA {
      return Some(SchemaVersion);
    }
    var limits := LimitsIssue(b.limits);
    if limits.Some? {
      return Some(ReplayError.Configuration(limits.value));
    }
    var policy := ValidatePolicy(b.policy);
    if policy.Some? {
      return Some(ReplayError.Configuration(policy.value));
    }
    StrictPatterns(b.policy.excludedPrefixes);
    StrictPatterns(b.policy.excludedSuffixes);
    StrictPatterns(b.policy.excludedBasenamePrefixes);
    if !AdjacentIncreasing(b.policy.excludedPrefixes) || !AdjacentIncreasing(b.policy.excludedSuffixes)
       || !AdjacentIncreasing(b.policy.excludedBasenamePrefixes) {
      return Some(ReplayError.Configuration(Pattern));
    }
    e := ValidateBody(h, b);
    if e.None? && h.plan(b) != p.digest {
      return Some(PlanDigest);
    }
  }

  method ValidateBody(h: Hashes, b: PlanBody) returns (e: Option<ReplayError>)
    requires b.limits.Valid()
    ensures e.None? <==>
      && ValidUnits(h, b, b.units) && WithinTotals(b.limits, b.units)
      && ValidOmissions(AllFiles(b.units), b.omitted)
      && ExactCoverage(b.coverage, AllFiles(b.units), b.omitted)
    ensures e.Some? ==> BodyRefused(h, b, e.value)
  {
    UnitsPassedExactly(h, b, b.units);
    OmissionsPassedExactly(AllFiles(b.units), b.omitted);
    var units := ValidateUnits(h, b);
    if units.Failure? {
      return Some(units.error);
    }
    var t := units.value;
    if |b.units| > b.limits.maxWorkUnits || t.files > b.limits.maxFiles || t.bytes > b.limits.maxTotalBytes
       || t.lowBytes > LowSignalLimit(b.limits) {
      return Some(LimitExceeded);
    }
    var reasons := ValidateOmissions(AllFiles(b.units), b.omitted, t.paths);
    if reasons.Failure? {
      return Some(reasons.error);
    }
    if |b.omitted| > U32_MAX || t.files + |b.omitted| > U32_MAX {
      return Some(DerivedCount);
    }
    var c := b.coverage;
    if c.inputFiles != t.files + |b.omitted| || c.includedFiles != t.files || c.omittedFiles != |b.omitted|
       || c.includedBytes != t.bytes || c.reasons != reasons.value || c.complete != (b.omitted == []) {
      return Some(CoverageError);
    }
    return None;
  }

  // ----- the builder

  /** The first input that fails, and why. */
  ghost predicate InputRefused(files: seq<FileInput>, e: BuildError) {
    exists i :: 0 <= i < |files| && ValidInputs(files[..i]) && InputFails(files[..i], files[i], e)
  }

  ghost predicate InputFails(rest: seq<FileInput>, f: FileInput, e: BuildError) {
    if !f.path.Sound() then e == InvalidChangedPath(f.path)
    else if !f.value.Valid() then e == InvalidReviewValue(f.path)
    else (exists g :: g in rest && g.path.newPath == f.path.newPath) && e == RepeatedPath(f.path)
  }

  lemma InputsSnoc(rest: seq<FileInput>, f: FileInput)
    ensures ValidInputs(rest + [f]) <==>
      ValidInputs(rest) && f.path.Sound() && f.value.Valid() && forall g :: g in rest ==> g.path.newPath != f.path.newPath
  {
    var paths := Map(NewPathOf, Map(InputPath, rest));
    MapSnoc(InputPath, rest, f);
    MapSnoc(NewPathOf, Map(InputPath, rest), f.path);
    DistinctSnoc(paths, f.path.newPath);
    MembersSnoc(rest, f);
    forall g | g in rest ensures g.path.newPath in paths {
      var i :| 0 <= i < |rest| && rest[i] == g;
      assert paths[i] == g.path.newPath;
    }
    assert forall i :: 0 <= i < |rest| ==> rest[i] in rest && paths[i] == rest[i].path.newPath;
  }

  lemma {:induction false} InputsPrefix(files: seq<FileInput>, i: nat)
    requires ValidInputs(files) && i <= |files|
    ensures ValidInputs(files[..i])
  {
    if i < |files| {
      var n := |files| - 1;
      assert files == files[..n] + [files[n]] && files[..n][..i] == files[..i];
      InputsSnoc(files[..n], files[n]);
      InputsPrefix(files[..n], i);
    } else {
      assert files[..i] == files;
    }
  }

  lemma InputStops(files: seq<FileInput>, i: nat)
    requires i < |files| && !ValidInputs(files[..i + 1])
    ensures !ValidInputs(files)
  {
    if ValidInputs(files) {
      InputsPrefix(files, i + 1);
    }
  }

  /** The input checks of `prepare_inputs`, in path order. */
  method CheckInputs(files: seq<FileInput>) returns (e: Option<BuildError>)
    ensures e.None? <==> ValidInputs(files)
    ensures e.Some? ==> InputRefused(files, e.value)
  {
    var seen: set<string> := {};
    for i := 0 to |files|
      invariant ValidInputs(files[..i])
      invariant forall path :: path in seen <==> exists g :: g in files[..i] && g.path.newPath == path
    {
      var f := files[i];
      PrefixSnoc(files, i);
      InputsSnoc(files[..i], f);
      MembersSnoc(files[..i], f);
      if !f.path.Sound() || !f.value.Valid() || f.path.newPath in seen {
        InputStops(files, i);
        e := Some(if !f.path.Sound() then InvalidChangedPath(f.path)
                  else if !f.value.Valid() then InvalidReviewValue(f.path)
                  else RepeatedPath(f.path));
        assert InputFails(files[..i], f, e.value);
        return;
      }
      seen := seen + {f.path.newPath};
    }
    assert files[..|files|] == files;
    return None;
  }

  /** The loop of `prepare_inputs`. */
  method PrepareInputs(sensitive: Sensitivity, policy: Policy, files: seq<FileInput>) returns (p: Preparation)
    ensures p == PrepareAll(sensitive, policy, files)
  {
    var included: seq<UnitFile>, omitted: seq<Omitted>, globalAnchors: set<string> := [], [], {};
    for i := 0 to |files|
      invariant Preparation(included, omitted, globalAnchors) == PrepareAll(sensitive, policy, files[..i])
    {
      assert files[..i + 1][..i] == files[..i];
      var (r, seen) := PrepareFile(sensitive, files[i], policy, globalAnchors);
      globalAnchors := seen;
      match r {
        case Success(file) => included := included + [file];
        case Failure(o) => omitted := omitted + [o];
      }
    }
    assert files[..|files|] == files;
    p := Preparation(included, omitted, globalAnchors);
  }

  /** Why building fails before its own replay. */
  ghost predicate BuildRefused(policy: Policy, l: Limits, files: seq<FileInput>, e: BuildError) {
    if !ValidPolicy(policy) then e.BadConfiguration? && FirstBadRule(policy, e.error)
    else if !l.Valid() then e.BadConfiguration? && FirstBadLimit(l, e.error)
    else if |files| > 100_000 then e == TooManyInputs
    else InputRefused(SortBy(ByInputPath, files), e)
  }

  /** `build_partition_plan`: succeeds exactly on buildable input whose work units get different
      identities, with the plan of `PlanFor`; it fails its own replay exactly when identities collide. */
  method BuildPlan(h: Hashes, sensitive: Sensitivity, snapshot: Snapshot, policy: Policy, l: Limits, files: seq<FileInput>)
    returns (r: Result<Plan, BuildError>)
    ensures r.Success? <==>
      Buildable(policy, l, files) && DistinctIds(PlanFor(h, sensitive, snapshot, policy, l, files).body.units)
    ensures r.Success? ==> r.value == PlanFor(h, sensitive, snapshot, policy, l, files) && ValidPlan(h, r.value)
    ensures r.Failure? && !r.error.InternalReplay? ==> BuildRefused(policy, l, files, r.error)
    ensures r.Failure? && r.error.InternalReplay? <==>
      Buildable(policy, l, files) && !DistinctIds(PlanFor(h, sensitive, snapshot, policy, l, files).body.units)
  {
    var policyIssue := ValidatePolicy(policy);
    if policyIssue.Some? {
      return Failure(BadConfiguration(policyIssue.value));
    }
    var limitsIssue := LimitsIssue(l);
    if limitsIssue.Some? {
      return Failure(BadConfiguration(limitsIssue.value));
    }
    if |files| > MAX_PLAN_FILES {
      return Failure(TooManyInputs);
    }
    var normalized := Normalized(policy);
    var sorted := SortBy(ByInputPath, files);
    if ValidInputs(files) {
      InputsPermuted(files, sorted);
    } else if ValidInputs(sorted) {
      InputsPermuted(sorted, files);
    }
    var inputIssue := CheckInputs(sorted);
    if inputIssue.Some? {
      return Failure(inputIssue.value);
    }
    var prepared := PrepareInputs(sensitive, normalized, sorted);
    var packed := PackFiles(SortBy(Preferred, prepared.included), prepared.omitted, l);
    var plan := Assemble(h, snapshot, normalized, l, packed);
    PartitionPlans.BuiltPlansReplay(h, sensitive, snapshot, policy, l, files);
    var replay := ValidateReplay(h, plan);
    if replay.Some? {
      return Failure(InternalReplay(replay.value));
    }
    return Success(plan);
  }
}
