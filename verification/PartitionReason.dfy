/** Why files are left out of a partition plan, and what becomes of those that are not
    (crates/revoot-core/src/partition.rs, lines 940-1218). */
module PartitionReasons {
  import opened Wrappers
  import opened Words
  import opened Sorting
  import opened Sequences
  import opened ChangedPaths
  import opened PartitionInputs
  import opened PartitionPacking
  import opened PartitionPlans
  import opened PartitionOutcomes
  import Strings
  import Texts
  import TextLaws

  // ----- selection

  ghost predicate HasPrefix(path: string, prefixes: seq<string>) {
    exists p, rest :: p in prefixes && path == p + rest
  }

  ghost predicate HasSuffix(path: string, suffixes: seq<string>) {
    exists s, head :: s in suffixes && path == head + s
  }

  /** The part of a path behind its last slash starts with a prefix. */
  ghost predicate NamedLike(path: string, prefixes: seq<string>) {
    exists name :: TextLaws.EndsBehind(path, '/', name) && HasPrefix(name, prefixes)
  }

  ghost predicate Sought(p: Policy, path: string) {
    || (|p.includedPaths| == 0 && |p.includedPrefixes| == 0 && |p.includedSuffixes| == 0)
    || path in p.includedPaths || HasPrefix(path, p.includedPrefixes) || HasSuffix(path, p.includedSuffixes)
  }

  ghost predicate Shunned(p: Policy, path: string) {
    || path in p.excludedPaths || HasPrefix(path, p.excludedPrefixes) || HasSuffix(path, p.excludedSuffixes)
    || NamedLike(path, p.excludedBasenamePrefixes)
  }

  /** The path is not kept out. */
  ghost predicate Open(sensitive: Sensitivity, p: Policy, path: string) {
    !sensitive(path) && Sought(p, path) && !Shunned(p, path)
  }

  ghost predicate Legible(p: Policy, c: FileClass) {
    c.Text? || (c.Generated? && p.includeGenerated)
  }

  ghost predicate WithDiff(objects: seq<ReviewObject>) {
    exists o :: o in objects && o.role.ExactDiff?
  }

  /** What each reason says of a file, given the rules that come before it. */
  ghost predicate SelectedFor(sensitive: Sensitivity, f: FileInput, p: Policy, reason: OmissionReason) {
    var path := f.path.newPath;
    var sought := !sensitive(path) && Sought(p, path);
    match reason
    case ExactPathPolicy => sensitive(path) || (sought && path in p.excludedPaths)
    case NotIncludedPolicy => !sensitive(path) && !Sought(p, path)
    case PrefixPolicy =>
      sought && path !in p.excludedPaths &&
      (HasPrefix(path, p.excludedPrefixes) || (!HasSuffix(path, p.excludedSuffixes) && NamedLike(path, p.excludedBasenamePrefixes)))
    case SuffixPolicy =>
      sought && path !in p.excludedPaths && !HasPrefix(path, p.excludedPrefixes) && HasSuffix(path, p.excludedSuffixes)
    case GeneratedPolicy => Open(sensitive, p, path) && f.fileClass.Generated? && !p.includeGenerated
    case BinaryFile => Open(sensitive, p, path) && f.fileClass.Binary?
    case UnsupportedEncodingFile => Open(sensitive, p, path) && f.fileClass.UnsupportedEncoding?
    case EmptyObjectSet => Open(sensitive, p, path) && Legible(p, f.fileClass) && |f.objects| == 0
    case MissingExactDiff => Open(sensitive, p, path) && Legible(p, f.fileClass) && |f.objects| > 0 && !WithDiff(f.objects)
    case InputByteOverflow => Open(sensitive, p, path) && Legible(p, f.fileClass) && WithDiff(f.objects) && TotalBytes(f.objects) > U64_MAX
    case FileTooLarge =>
      Open(sensitive, p, path) && Legible(p, f.fileClass) && WithDiff(f.objects) && p.maxFileBytes < TotalBytes(f.objects) <= U64_MAX
    case _ => false
  }

  lemma {:induction false} PrefixIsTold(path: string, prefixes: seq<string>)
    ensures AnyPrefix(path, prefixes) <==> HasPrefix(path, prefixes)
  {
    if AnyPrefix(path, prefixes) {
      var i :| 0 <= i < |prefixes| && prefixes[i] <= path;
      assert path == prefixes[i] + path[|prefixes[i]|..];
    }
  }

  lemma {:induction false} SuffixIsTold(path: string, suffixes: seq<string>)
    ensures AnySuffix(path, suffixes) <==> HasSuffix(path, suffixes)
  {
    if s, head :| s in suffixes && path == head + s {
      var i :| 0 <= i < |suffixes| && suffixes[i] == s;
      Texts.StripSuffixOf(head, suffixes[i]);
    }
    if AnySuffix(path, suffixes) {
      var i :| 0 <= i < |suffixes| && Texts.StripSuffix(path, suffixes[i]).Some?;
      assert path == Texts.StripSuffix(path, suffixes[i]).value + suffixes[i];
    }
  }

  lemma {:induction false} NameIsTold(path: string, prefixes: seq<string>)
    ensures AnyPrefix(Texts.AfterLast(path, '/'), prefixes) <==> NamedLike(path, prefixes)
  {
    TextLaws.AfterLastEnds(path, '/');
    PrefixIsTold(Texts.AfterLast(path, '/'), prefixes);
    forall name | TextLaws.EndsBehind(path, '/', name) ensures name == Texts.AfterLast(path, '/') {
      TextLaws.AfterLastIsTold(path, '/', name);
    }
  }

  lemma {:induction false} PathRulesAreTold(p: Policy, path: string)
    ensures Wanted(p, path) <==> Sought(p, path)
    ensures Unwanted(p, path) <==> Shunned(p, path)
    ensures AnyPrefix(path, p.excludedPrefixes) <==> HasPrefix(path, p.excludedPrefixes)
    ensures AnySuffix(path, p.excludedSuffixes) <==> HasSuffix(path, p.excludedSuffixes)
    ensures AnyPrefix(Texts.AfterLast(path, '/'), p.excludedBasenamePrefixes) <==> NamedLike(path, p.excludedBasenamePrefixes)
  {
    PrefixIsTold(path, p.includedPrefixes);
    PrefixIsTold(path, p.excludedPrefixes);
    SuffixIsTold(path, p.includedSuffixes);
    SuffixIsTold(path, p.excludedSuffixes);
    NameIsTold(path, p.excludedBasenamePrefixes);
  }

  lemma {:induction false} DiffIsTold(objects: seq<ReviewObject>)
    ensures HasExactDiff(objects) <==> WithDiff(objects)
  {
    if o :| o in objects && o.role.ExactDiff? {
      var i :| 0 <= i < |objects| && objects[i] == o;
    }
  }

  /** A file is deselected with a reason exactly if the reason holds of it. */
  lemma {:induction false} SelectionIsTold(sensitive: Sensitivity, f: FileInput, p: Policy, reason: OmissionReason)
    ensures SelectionReason(sensitive, f, p) == Some(reason) <==> SelectedFor(sensitive, f, p, reason)
  {
    PathRulesAreTold(p, f.path.newPath);
    DiffIsTold(f.objects);
  }

  /** A review value is in order exactly if it has a reason and its tier is the one of its score. */
  lemma ValuesAreTold(v: ReviewValue)
    ensures v.Valid() <==> |v.reasons| > 0 && v.tier == if v.score >= 200 then High else if v.score >= 50 then Standard else Low
  {
  }

  // ----- admission

  /** Sizes add up. */
  lemma {:induction false} SizesAddUp(a: seq<ReviewObject>, o: ReviewObject)
    ensures TotalBytes([]) == 0
    ensures TotalBytes(a + [o]) == TotalBytes(a) + o.size
  {
    TotalBytesConcat(a, [o]);
  }

  ghost predicate RoleTwice(objects: seq<ReviewObject>) {
    exists i, j :: 0 <= i < j < |objects| && objects[i].role == objects[j].role
  }

  ghost predicate AnchorTwice(anchors: seq<string>) {
    exists i, j :: 0 <= i < j < |anchors| && anchors[i] == anchors[j]
  }

  /** The exact diff, the old blob, the new blob, the context. */
  predicate RoleBefore(a: Role, b: Role) {
    match a
    case ExactDiff => !b.ExactDiff?
    case OldBlob => b.NewBlob? || b.BoundedContext?
    case NewBlob => b.BoundedContext?
    case BoundedContext => false
  }

  function RoleOf(o: ReviewObject): Role {
    o.role
  }

  lemma {:induction false} RolesAreTold(objects: seq<ReviewObject>)
    ensures AdjacentEqualRole(SortBy(ObjectLess, objects)) <==> RoleTwice(objects)
    ensures !RoleTwice(objects) ==> InRoleOrder(SortBy(ObjectLess, objects))
  {
    var s := SortBy(ObjectLess, objects);
    RolesPermuted(objects, s);
    ObjectOrder();
    SortBySorted(ObjectLess, objects);
    SortedRoles(s);
  }

  lemma {:induction false} SortedRoles(s: seq<ReviewObject>)
    requires Sorted(ObjectLess, s)
    ensures AdjacentEqualRole(s) <==> RoleTwice(s)
    ensures !RoleTwice(s) ==> InRoleOrder(s)
  {
    if !AdjacentEqualRole(s) {
      RolesIncrease(s);
    }
  }

  ghost predicate InRoleOrder(s: seq<ReviewObject>) {
    forall i, j :: 0 <= i < j < |s| ==> RoleBefore(s[i].role, s[j].role)
  }

  lemma {:induction false} RolesPermuted(a: seq<ReviewObject>, b: seq<ReviewObject>)
    requires multiset(a) == multiset(b)
    ensures RoleTwice(a) <==> RoleTwice(b)
  {
    MapPermutation(RoleOf, a, b);
    RolesDistinct(a);
    RolesDistinct(b);
    if !RoleTwice(a) {
      DistinctPermutation(Map(RoleOf, a), Map(RoleOf, b));
    } else if !RoleTwice(b) {
      DistinctPermutation(Map(RoleOf, b), Map(RoleOf, a));
    }
  }

  lemma {:induction false} RolesDistinct(objects: seq<ReviewObject>)
    ensures Distinct(Map(RoleOf, objects)) <==> !RoleTwice(objects)
  {
    var roles := Map(RoleOf, objects);
    if i, j :| 0 <= i < j < |objects| && objects[i].role == objects[j].role {
      assert roles[i] == roles[j];
    }
  }

  lemma {:induction false} RolesIncrease(s: seq<ReviewObject>)
    requires Sorted(ObjectLess, s) && !AdjacentEqualRole(s)
    ensures InRoleOrder(s)
  {
    if |s| >= 2 {
      var n := |s| - 1;
      forall i | 0 <= i < n - 1 ensures s[..n][i].role != s[..n][i + 1].role {
        assert s[i].role != s[i + 1].role;
      }
      RolesIncrease(s[..n]);
      assert s[n - 1].role != s[n - 1 + 1].role && !ObjectLess(s[n], s[n - 1]);
      forall i | 0 <= i < n ensures RoleBefore(s[i].role, s[n].role) {
        if i < n - 1 {
          assert RoleBefore(s[..n][i].role, s[..n][n - 1].role);
        }
      }
      forall i, j | 0 <= i < j < n ensures RoleBefore(s[i].role, s[j].role) {
        assert s[..n][i] == s[i] && s[..n][j] == s[j];
      }
    }
  }

  lemma {:induction false} AnchorsAreTold(anchors: seq<string>)
    ensures AdjacentEqual(SortBy(Strings.Less, anchors)) <==> AnchorTwice(anchors)
  {
    var s := SortBy(Strings.Less, anchors);
    if Distinct(anchors) {
      DistinctPermutation(anchors, s);
    } else if !AdjacentEqual(s) {
      CanonicalAnchors(anchors);
      Strings.LessIsStrictTotal();
      assert Distinct(s);
      DistinctPermutation(s, anchors);
    }
  }

  ghost predicate Used(anchors: seq<string>, seen: set<string>) {
    exists a :: a in anchors && a in seen
  }

  /** The admitted form of a file: its objects in the order of their roles, its anchors in alphabetical order, and
      its size. */
  ghost predicate Canonical(f: FileInput, u: UnitFile) {
    && (u.path, u.fileClass, u.value) == (f.path, f.fileClass, f.value) && u.bytes == TotalBytes(f.objects)
    && multiset(u.objects) == multiset(f.objects) && InRoleOrder(u.objects)
    && multiset(u.anchors) == multiset(f.anchors)
    && (forall i, j :: 0 <= i < j < |u.anchors| ==> Strings.Less(u.anchors[i], u.anchors[j]))
  }

  /** What becomes of a selected file. */
  ghost predicate AdmittedRightly(f: FileInput, seen: set<string>, r: Result<UnitFile, Omitted>) {
    var taken := AnchorTwice(f.anchors) || Used(f.anchors, seen);
    match r
    case Failure(o) =>
      o.path == f.path &&
      (match o.reason
       case DuplicateObjectRole => RoleTwice(f.objects)
       case DuplicateAnchor => !RoleTwice(f.objects) && taken
       case InputByteOverflow => !RoleTwice(f.objects) && !taken && TotalBytes(f.objects) > U64_MAX
       case _ => false)
    case Success(u) => !RoleTwice(f.objects) && !taken && Canonical(f, u)
  }

  lemma {:induction false} AdmittedIsCanonical(f: FileInput)
    requires !RoleTwice(f.objects) && !AnchorTwice(f.anchors) && TotalBytes(f.objects) <= U64_MAX
    ensures Canonical(f, UnitFile(f.path, f.fileClass, f.value, SortBy(ObjectLess, f.objects), SortBy(Strings.Less, f.anchors),
                                  TotalBytes(f.objects)))
  {
    RolesAreTold(f.objects);
    AnchorsAreTold(f.anchors);
    CanonicalAnchors(f.anchors);
  }

  lemma {:induction false} ChecksAreTold(f: FileInput, seen: set<string>)
    ensures AdjacentEqualRole(SortBy(ObjectLess, f.objects)) <==> RoleTwice(f.objects)
    ensures var anchors := SortBy(Strings.Less, f.anchors);
      AdjacentEqual(anchors) || SetOf(anchors) * seen != {} <==> AnchorTwice(f.anchors) || Used(f.anchors, seen)
    ensures TotalBytes(SortBy(ObjectLess, f.objects)) == TotalBytes(f.objects)
  {
    RolesAreTold(f.objects);
    AnchorsAreTold(f.anchors);
    UsedIsTold(f.anchors, SortBy(Strings.Less, f.anchors), seen);
    TotalBytesPermutation(f.objects, SortBy(ObjectLess, f.objects));
  }

  /** Admission refuses a file exactly for a role or an anchor that comes twice or an anchor in use, and otherwise
      brings it to its canonical form. */
  lemma {:induction false} AdmissionIsTold(f: FileInput, seen: set<string>)
    ensures AdmittedRightly(f, seen, Admit(f, seen).0)
  {
    ChecksAreTold(f, seen);
    if !RoleTwice(f.objects) && !AnchorTwice(f.anchors) && TotalBytes(f.objects) <= U64_MAX {
      AdmittedIsCanonical(f);
    }
  }

  lemma UsedIsTold(anchors: seq<string>, sorted: seq<string>, seen: set<string>)
    requires multiset(anchors) == multiset(sorted)
    ensures SetOf(sorted) * seen != {} <==> Used(anchors, seen)
  {
    SameElements(anchors, sorted);
    if a :| a in anchors && a in seen {
      assert a in SetOf(sorted) * seen;
    }
    if SetOf(sorted) * seen != {} {
      var a :| a in SetOf(sorted) * seen;
      assert a in anchors;
    }
  }

  // ----- packing

  /** More low-signal bytes than a tenth of the total or 64 KiB. */
  predicate TooMuchLowSignal(l: Limits, bytes: nat) {
    10 * bytes > l.maxTotalBytes || bytes > 65_536
  }

  lemma LowSignalIsTold(l: Limits, bytes: nat)
    ensures bytes > LowSignalLimit(l) <==> TooMuchLowSignal(l, bytes)
  {
  }

  function IsLow(): UnitFile -> bool {
    (f: UnitFile) => f.value.tier.Low?
  }

  /** The low-signal bytes are the bytes of the files of the lowest tier. */
  lemma {:induction false} LowBytesAreTold(files: seq<UnitFile>)
    ensures LowBytes(files) == Bytes(Filter(IsLow(), files))
  {
    if files != [] {
      var n := |files| - 1;
      LowBytesAreTold(files[..n]);
      FilterSnoc(IsLow(), files[..n], files[n]);
      assert files == files[..n] + [files[n]];
      OneMoreLow(Filter(IsLow(), files[..n]), files[n]);
    }
  }

  lemma {:induction false} OneMoreLow(kept: seq<UnitFile>, f: UnitFile)
    ensures Bytes(kept + if IsLow()(f) then [f] else []) == Bytes(kept) + LowShare(f)
  {
    TotalsConcat(kept, [f]);
    Singleton(f);
    assert kept + [] == kept;
  }

  /** The budgets that all units share allow the file. */
  ghost predicate Affordable(p: Packing, f: UnitFile, l: Limits) {
    && p.files < l.maxFiles
    && !(f.value.tier.Low? && TooMuchLowSignal(l, p.lowBytes + f.bytes))
    && p.bytes + f.bytes <= l.maxTotalBytes
  }

  /** There is no slot for another unit. */
  ghost predicate Closed(p: Packing, l: Limits) {
    |p.bins| >= l.maxWorkUnits
  }

  ghost predicate AllFull(p: Packing, l: Limits) {
    forall i :: 0 <= i < |p.bins| ==> |p.bins[i]| >= l.maxFilesPerUnit
  }

  ghost predicate AllTooHeavy(p: Packing, f: UnitFile, l: Limits) {
    forall i :: 0 <= i < |p.bins| ==> Bytes(p.bins[i]) + f.bytes > l.maxBytesPerUnit
  }

  ghost predicate AllTooCrowded(p: Packing, f: UnitFile, l: Limits) {
    forall i :: 0 <= i < |p.bins| ==> Anchors(p.bins[i]) + |f.anchors| > l.maxAnchorsPerUnit
  }

  ghost predicate AllUnfit(p: Packing, f: UnitFile, l: Limits) {
    forall i :: 0 <= i < |p.bins| ==>
      || |p.bins[i]| >= l.maxFilesPerUnit || Bytes(p.bins[i]) + f.bytes > l.maxBytesPerUnit
      || Anchors(p.bins[i]) + |f.anchors| > l.maxAnchorsPerUnit
  }

  /** The reasons that do not depend on what the units hold. */
  ghost predicate TooMuch(p: Packing, f: UnitFile, l: Limits, reason: OmissionReason) {
    var low := f.value.tier.Low? && TooMuchLowSignal(l, p.lowBytes + f.bytes);
    match reason
    case FileBudget => p.files >= l.maxFiles
    case LowSignalBudget => p.files < l.maxFiles && low
    case TotalByteBudget => p.files < l.maxFiles && !low && p.bytes + f.bytes > l.maxTotalBytes
    case WorkUnitByteCapacity => Affordable(p, f, l) && f.bytes > l.maxBytesPerUnit
    case WorkUnitAnchorCapacity => Affordable(p, f, l) && f.bytes <= l.maxBytesPerUnit && |f.anchors| > l.maxAnchorsPerUnit
    case _ => false
  }

  lemma CapacityIsTold(p: Packing, f: UnitFile, l: Limits, reason: OmissionReason)
    ensures CapacityReason(f, l, p.files, p.bytes, p.lowBytes) == Some(reason) <==> TooMuch(p, f, l, reason)
    ensures CapacityReason(f, l, p.files, p.bytes, p.lowBytes) == None <==>
      Affordable(p, f, l) && f.bytes <= l.maxBytesPerUnit && |f.anchors| <= l.maxAnchorsPerUnit
  {
    LowSignalIsTold(l, p.lowBytes + f.bytes);
  }

  /** The reasons for which no unit takes the file. */
  ghost predicate NoneTakes(p: Packing, f: UnitFile, l: Limits, reason: OmissionReason) {
    match reason
    case WorkUnitFileCapacity => AllFull(p, l)
    case WorkUnitByteCapacity => !AllFull(p, l) && AllTooHeavy(p, f, l)
    case WorkUnitAnchorCapacity => !AllFull(p, l) && !AllTooHeavy(p, f, l) && AllTooCrowded(p, f, l)
    case WorkUnitBudget => !AllFull(p, l) && !AllTooHeavy(p, f, l) && !AllTooCrowded(p, f, l)
    case _ => false
  }

  lemma FullIsTold(p: Packing, f: UnitFile, l: Limits, reason: OmissionReason)
    ensures FullReason(p.bins, f, l) == reason <==> NoneTakes(p, f, l, reason)
  {
  }

  lemma {:induction false} UnfitIsTold(p: Packing, f: UnitFile, l: Limits)
    ensures FirstFit(p.bins, f, l) == |p.bins| <==> AllUnfit(p, f, l)
  {
    var i := FirstFit(p.bins, f, l);
    if i < |p.bins| {
      assert Fits(p.bins[i], f, l);
    } else {
      forall k | 0 <= k < |p.bins| ensures !Fits(p.bins[k], f, l) { }
    }
  }

  lemma OneReason(p: Packing, f: UnitFile, r: OmissionReason, s: OmissionReason)
    ensures Omit(p, f, r) == Omit(p, f, s) <==> r == s
  {
    assert Omit(p, f, r).omitted[|p.omitted|].reason == r;
    assert Omit(p, f, s).omitted[|p.omitted|].reason == s;
  }

  lemma PlacedIsNotOmitted(p: Packing, f: UnitFile, destination: nat, reason: OmissionReason)
    requires destination <= |p.bins|
    ensures Place(p, f, destination) != Omit(p, f, reason)
  {
  }

  /** What each reason says of a file whose turn has come. */
  ghost predicate LeftOutFor(p: Packing, f: UnitFile, l: Limits, reason: OmissionReason) {
    || TooMuch(p, f, l, reason)
    || (Affordable(p, f, l) && f.bytes <= l.maxBytesPerUnit && |f.anchors| <= l.maxAnchorsPerUnit
        && Closed(p, l) && AllUnfit(p, f, l) && NoneTakes(p, f, l, reason))
  }

  /** A file is left out with a reason exactly if the reason holds of it when its turn comes. */
  lemma {:induction false} PackingReasonIsTold(p: Packing, f: UnitFile, l: Limits, reason: OmissionReason)
    requires l.Valid()
    ensures PackStep(p, f, l) == Omit(p, f, reason) <==> LeftOutFor(p, f, l, reason)
  {
    var capacity, destination := CapacityReason(f, l, p.files, p.bytes, p.lowBytes), FirstFit(p.bins, f, l);
    CapacityIsTold(p, f, l, reason);
    FullIsTold(p, f, l, reason);
    UnfitIsTold(p, f, l);
    PlacedIsNotOmitted(p, f, destination, reason);
    OneReason(p, f, FullReason(p.bins, f, l), reason);
    if capacity.Some? {
      OneReason(p, f, capacity.value, reason);
    }
  }

  // ----- the finished plan

  /** What a reason still says of a file when the packing is finished. */
  ghost predicate Stands(p: Packing, f: UnitFile, l: Limits, reason: OmissionReason) {
    match reason
    case FileBudget => p.files >= l.maxFiles
    case LowSignalBudget => f.value.tier.Low? && TooMuchLowSignal(l, p.lowBytes + f.bytes)
    case TotalByteBudget => p.bytes + f.bytes > l.maxTotalBytes
    case WorkUnitByteCapacity => f.bytes > l.maxBytesPerUnit || (Closed(p, l) && AllTooHeavy(p, f, l))
    case WorkUnitAnchorCapacity => |f.anchors| > l.maxAnchorsPerUnit || (Closed(p, l) && AllTooCrowded(p, f, l))
    case WorkUnitFileCapacity => Closed(p, l) && AllFull(p, l)
    case WorkUnitBudget => Closed(p, l) && AllUnfit(p, f, l)
    case _ => false
  }

  /** Units only grow, and new ones only come while there are slots. */
  lemma PlacedGrows(p: Packing, g: UnitFile, l: Limits)
    requires l.Valid()
    ensures var q := PackStep(p, g, l);
      && q.files >= p.files && q.bytes >= p.bytes && q.lowBytes >= p.lowBytes && |q.bins| >= |p.bins|
      && (Closed(p, l) ==> |q.bins| == |p.bins|)
      && forall i :: 0 <= i < |p.bins| ==>
           |q.bins[i]| >= |p.bins[i]| && Bytes(q.bins[i]) >= Bytes(p.bins[i]) && Anchors(q.bins[i]) >= Anchors(p.bins[i])
  {
    PackedIffRoom(p, g, l);
    if Room(p, g, l) {
      var destination := FirstFit(p.bins, g, l);
      if destination < |p.bins| {
        TotalsConcat(p.bins[destination], [g]);
      }
    }
  }

  /** A reason does not lapse. */
  lemma StandsOn(p: Packing, g: UnitFile, l: Limits, f: UnitFile, reason: OmissionReason)
    requires l.Valid() && Stands(p, f, l, reason)
    ensures Stands(PackStep(p, g, l), f, l, reason)
  {
    PlacedGrows(p, g, l);
  }

  lemma OmittedStands(p: Packing, f: UnitFile, l: Limits, reason: OmissionReason)
    requires l.Valid() && PackStep(p, f, l) == Omit(p, f, reason)
    ensures Stands(PackStep(p, f, l), f, l, reason)
  {
    PackingReasonIsTold(p, f, l, reason);
  }

  /** The reasons of the files that were not packed stand in the finished packing. */
  ghost predicate Explained(p: Packing, f: UnitFile, l: Limits) {
    f in Flatten(p.bins) || exists reason :: Omitted(f.path, reason) in p.omitted && Stands(p, f, l, reason)
  }

  lemma StepExplains(p: Packing, g: UnitFile, l: Limits, f: UnitFile)
    requires l.Valid() && (f == g || Explained(p, f, l))
    ensures Explained(PackStep(p, g, l), f, l)
  {
    var q := PackStep(p, g, l);
    PackedIffRoom(p, g, l);
    StepMembers(p, g, l, f);
    assert forall o :: o in p.omitted ==> o in q.omitted;
    if f == g && !Room(p, f, l) {
      var reason :| q == Omit(p, f, reason);
      OmittedStands(p, f, l, reason);
      assert q.omitted[|p.omitted|] == Omitted(f.path, reason);
    } else if f !in Flatten(p.bins) && f != g {
      var reason :| Omitted(f.path, reason) in p.omitted && Stands(p, f, l, reason);
      StandsOn(p, g, l, f, reason);
    }
  }

  /** Every file is packed or left out with a reason that stands. */
  lemma {:induction false} PackingExplains(files: seq<UnitFile>, omitted: seq<Omitted>, l: Limits, f: UnitFile)
    requires l.Valid() && f in files
    ensures Explained(PackAll(files, omitted, l), f, l)
  {
    var n := |files| - 1;
    if f in files[..n] {
      PackingExplains(files[..n], omitted, l, f);
    }
    StepExplains(PackAll(files[..n], omitted, l), files[n], l, f);
  }

  /** Every omission is an earlier one or explains a file. */
  lemma {:induction false} PackingOmits(files: seq<UnitFile>, omitted: seq<Omitted>, l: Limits, o: Omitted)
    requires l.Valid() && o in PackAll(files, omitted, l).omitted
    ensures o in omitted || exists f :: f in files && f.path == o.path && Stands(PackAll(files, omitted, l), f, l, o.reason)
  {
    if files != [] {
      var n := |files| - 1;
      var p := PackAll(files[..n], omitted, l);
      if o in p.omitted {
        PackingOmits(files[..n], omitted, l, o);
        if o !in omitted {
          var f :| f in files[..n] && f.path == o.path && Stands(p, f, l, o.reason);
          StandsOn(p, files[n], l, f, o.reason);
        }
      } else {
        NewOmission(p, files[n], l, o);
      }
    }
  }

  lemma NewOmission(p: Packing, f: UnitFile, l: Limits, o: Omitted)
    requires l.Valid() && o in PackStep(p, f, l).omitted && o !in p.omitted
    ensures o.path == f.path && Stands(PackStep(p, f, l), f, l, o.reason)
  {
    PackedIffRoom(p, f, l);
    var reason :| PackStep(p, f, l) == Omit(p, f, reason);
    OmittedStands(p, f, l, reason);
    assert o == Omitted(f.path, reason);
  }

  /** Nobody admitted this file: a selection rule or an admission rule gives the reason. */
  ghost predicate TurnedAway(sensitive: Sensitivity, policy: Policy, f: FileInput, o: Omitted) {
    || (SelectedFor(sensitive, f, policy, o.reason) && o.path == f.path)
    || ((forall reason :: !SelectedFor(sensitive, f, policy, reason)) && exists seen :: AdmittedRightly(f, seen, Failure(o)))
  }

  lemma {:induction false} PreparingOmits(sensitive: Sensitivity, policy: Policy, files: seq<FileInput>, o: Omitted)
    requires o in PrepareAll(sensitive, policy, files).omitted
    ensures exists f :: f in files && TurnedAway(sensitive, policy, f, o)
  {
    if files != [] {
      var n := |files| - 1;
      var p := PrepareAll(sensitive, policy, files[..n]);
      if o in p.omitted {
        PreparingOmits(sensitive, policy, files[..n], o);
      } else {
        TurningAway(sensitive, policy, files[n], p.seen, o);
        assert files[n] in files;
      }
    }
  }

  lemma TurningAway(sensitive: Sensitivity, policy: Policy, f: FileInput, seen: set<string>, o: Omitted)
    requires PrepareFile(sensitive, f, policy, seen).0 == Failure(o)
    ensures TurnedAway(sensitive, policy, f, o)
  {
    forall reason ensures SelectionReason(sensitive, f, policy) == Some(reason) <==> SelectedFor(sensitive, f, policy, reason) {
      SelectionIsTold(sensitive, f, policy, reason);
    }
    AdmissionIsTold(f, seen);
  }

  /** Every omission in a plan is explained: its file was turned away, or it was admitted and its reason stands in
      the finished packing. */
  lemma OmissionsAreExplained(h: Hashes, sensitive: Sensitivity, snapshot: Snapshot, policy: Policy, l: Limits,
                              files: seq<FileInput>, o: Omitted)
    requires Buildable(policy, l, files) && o in Body(h, sensitive, snapshot, policy, l, files).omitted
    ensures var p := Pack(sensitive, Normalized(policy), l, files);
      || (exists f :: f in files && TurnedAway(sensitive, Normalized(policy), f, o))
      || (exists u :: u in Admitted(sensitive, policy, files) && u.path == o.path && Stands(p, u, l, o.reason))
  {
    var sorted := SortBy(ByInputPath, files);
    var prepared := PrepareAll(sensitive, Normalized(policy), sorted);
    PlanHoldsPacking(h, sensitive, snapshot, policy, l, files);
    var b, p := Body(h, sensitive, snapshot, policy, l, files), Pack(sensitive, Normalized(policy), l, files);
    SameElements(b.omitted, p.omitted);
    PackingOmits(SortBy(Preferred, prepared.included), prepared.omitted, l, o);
    if o in prepared.omitted {
      PreparingOmits(sensitive, Normalized(policy), sorted, o);
      SameElements(files, sorted);
    } else {
      SameElements(prepared.included, SortBy(Preferred, prepared.included));
    }
  }

  // ----- the tally of reasons

  function ReasonIs(r: OmissionReason): Omitted -> bool {
    (o: Omitted) => o.reason == r
  }

  /** Reasons are counted exactly. */
  lemma {:induction false} ReasonsAreCounted(omitted: seq<Omitted>, r: OmissionReason)
    ensures r in CountReasons(omitted) <==> |Filter(ReasonIs(r), omitted)| > 0
    ensures r in CountReasons(omitted) ==> CountReasons(omitted)[r] == |Filter(ReasonIs(r), omitted)|
  {
    if omitted != [] {
      var n := |omitted| - 1;
      ReasonsAreCounted(omitted[..n], r);
      FilterSnoc(ReasonIs(r), omitted[..n], omitted[n]);
      assert omitted == omitted[..n] + [omitted[n]];
    }
  }

  /** The coverage of a plan says how many files came in, how many of them and how many bytes are in the work units,
      how many were left out and for which reasons, and whether none was. */
  lemma CoverageIsTold(h: Hashes, sensitive: Sensitivity, snapshot: Snapshot, policy: Policy, l: Limits, files: seq<FileInput>)
    requires Buildable(policy, l, files)
    ensures var b := Body(h, sensitive, snapshot, policy, l, files);
      var c, included := b.coverage, AllFiles(b.units);
      && c.inputFiles == |files| && c.includedFiles == |included| && c.omittedFiles == |b.omitted|
      && c.includedBytes == Bytes(included)
      && (c.complete <==> |included| == |files|)
      && forall r :: if r in c.reasons then c.reasons[r] == |Filter(ReasonIs(r), b.omitted)| > 0 else Filter(ReasonIs(r), b.omitted) == []
  {
    var b, p := Body(h, sensitive, snapshot, policy, l, files), Pack(sensitive, Normalized(policy), l, files);
    PlansConserve(h, sensitive, snapshot, policy, l, files);
    OutcomesCount(AllFiles(b.units), b.omitted, files);
    PlanHoldsPacking(h, sensitive, snapshot, policy, l, files);
    PlanHasPackingTotals(h, sensitive, snapshot, policy, l, files);
    SameElements(b.omitted, p.omitted);
    CoverageReplays(h, snapshot, Normalized(policy), l, p, AllFiles(b.units));
    forall r ensures
        if r in b.coverage.reasons then b.coverage.reasons[r] == |Filter(ReasonIs(r), b.omitted)| > 0
        else Filter(ReasonIs(r), b.omitted) == [] {
      ReasonsAreCounted(b.omitted, r);
    }
  }

  lemma OutcomesCount(included: seq<UnitFile>, omitted: seq<Omitted>, files: seq<FileInput>)
    requires multiset(Map(PathOf, included) + Map(OmittedPath, omitted)) == multiset(Map(InputPath, files))
    ensures |included| + |omitted| == |files|
  {
    SameElements(Map(PathOf, included) + Map(OmittedPath, omitted), Map(InputPath, files));
  }

  // ----- the order of a plan

  predicate KindAhead(a: ChangeKind, b: ChangeKind) {
    match a
    case Modified => !b.Modified?
    case Renamed => b.Added? || b.Deleted?
    case Added => b.Deleted?
    case Deleted => false
  }

  /** By old path, then by new path, then by kind. */
  predicate PathAhead(a: ChangedPath, b: ChangedPath) {
    || Strings.Less(a.oldPath, b.oldPath)
    || (a.oldPath == b.oldPath && Strings.Less(a.newPath, b.newPath))
    || (a.oldPath == b.oldPath && a.newPath == b.newPath && KindAhead(a.kind, b.kind))
  }

  lemma PathsAreTold(a: ChangedPath, b: ChangedPath)
    ensures PathLess(a, b) <==> PathAhead(a, b)
  {
    Strings.LessIrreflexive(a.oldPath);
    Strings.LessIrreflexive(a.newPath);
  }

  ghost predicate InPlanOrder(b: PlanBody) {
    && (forall i, j :: 0 <= i < j < |b.units| ==> Strings.Less(b.units[i].id, b.units[j].id))
    && (forall u :: u in b.units ==> FilesInOrder(u.files))
    && (forall i, j :: 0 <= i < j < |b.omitted| ==> PathAhead(b.omitted[i].path, b.omitted[j].path))
  }

  ghost predicate FilesInOrder(files: seq<UnitFile>) {
    forall i, j :: 0 <= i < j < |files| ==> PathAhead(files[i].path, files[j].path)
  }

  /** In a valid plan the work units stand by identity, and their files and the omissions by path. */
  lemma PlansAreInOrder(h: Hashes, p: Plan)
    requires ValidPlan(h, p)
    ensures InPlanOrder(p.body)
  {
    var b := p.body;
    forall i, j | 0 <= i < j < |b.units| ensures Strings.Less(b.units[i].id, b.units[j].id) {
      assert ById(b.units[i], b.units[j]);
    }
    forall u | u in b.units ensures FilesInOrder(u.files) {
      assert ValidUnit(h, b, u);
      UnitInOrder(u.files);
    }
    forall i, j | 0 <= i < j < |b.omitted| ensures PathAhead(b.omitted[i].path, b.omitted[j].path) {
      assert ByOmittedPath(b.omitted[i], b.omitted[j]);
      PathsAreTold(b.omitted[i].path, b.omitted[j].path);
    }
  }

  lemma UnitInOrder(files: seq<UnitFile>)
    requires ValidUnitFiles(files)
    ensures FilesInOrder(files)
  {
    forall i, j | 0 <= i < j < |files| ensures PathAhead(files[i].path, files[j].path) {
      assert ByPath(files[i], files[j]);
      PathsAreTold(files[i].path, files[j].path);
    }
  }

  // ----- who gets an anchor

  /** What becomes of a file, given the anchors in use, and the anchors that some files claim. */
  type Preparer = (FileInput, set<string>) -> Result<UnitFile, Omitted>

  type Claims = seq<FileInput> -> set<string>

  function PreparerOf(sensitive: Sensitivity, policy: Policy): Preparer {
    (f: FileInput, seen: set<string>) => PrepareFile(sensitive, f, policy, seen).0
  }

  function ClaimsOf(sensitive: Sensitivity, policy: Policy): Claims {
    (files: seq<FileInput>) => PrepareAll(sensitive, policy, files).seen
  }

  /** What the preparation makes of input `i`. */
  function Prepared(g: Preparer, claims: Claims, files: seq<FileInput>, i: nat): Result<UnitFile, Omitted>
    requires i < |files|
  {
    g(files[i], claims(files[..i]))
  }

  ghost predicate PreparedAs(g: Preparer, claims: Claims, files: seq<FileInput>, u: UnitFile) {
    exists i: nat :: i < |files| && Prepared(g, claims, files, i) == Success(u)
  }

  lemma PreparedInPrefix(g: Preparer, claims: Claims, files: seq<FileInput>, n: nat, i: nat)
    requires i < n <= |files|
    ensures Prepared(g, claims, files[..n], i) == Prepared(g, claims, files, i)
  {
    assert files[..n][..i] == files[..i] && files[..n][i] == files[i];
  }

  lemma PreparedStep(g: Preparer, claims: Claims, files: seq<FileInput>, u: UnitFile)
    requires files != []
    ensures var n := |files| - 1;
      PreparedAs(g, claims, files, u) <==> PreparedAs(g, claims, files[..n], u) || Prepared(g, claims, files, n) == Success(u)
  {
    var n := |files| - 1;
    forall i: nat | i < n ensures Prepared(g, claims, files[..n], i) == Prepared(g, claims, files, i) {
      PreparedInPrefix(g, claims, files, n, i);
    }
  }

  ghost predicate InputsAhead(s: seq<FileInput>) {
    forall i, j :: 0 <= i < j < |s| ==> PathAhead(s[i].path, s[j].path)
  }

  /** Preparing a file keeps its path. */
  ghost predicate KeepsPaths(g: Preparer, s: seq<FileInput>) {
    forall f, seen :: f in s && g(f, seen).Success? ==> g(f, seen).value.path == f.path
  }

  lemma AheadIsStrict(a: ChangedPath, b: ChangedPath)
    requires PathAhead(a, b)
    ensures !PathAhead(b, a) && a != b
  {
    PathOrder();
    PathsAreTold(a, b);
    PathsAreTold(b, a);
  }

  /** What is prepared with the path of input `k` comes from it, and what is prepared with a path ahead of it comes
      from the inputs before it. */
  lemma {:induction false} PreparedFrom(g: Preparer, claims: Claims, s: seq<FileInput>, k: nat, i: nat)
    requires InputsAhead(s) && KeepsPaths(g, s) && k < |s| && i < |s| && Prepared(g, claims, s, i).Success?
    ensures var u := Prepared(g, claims, s, i).value;
      && u.path == s[i].path && (u.path == s[k].path <==> i == k) && (PathAhead(u.path, s[k].path) <==> i < k)
  {
    if i < k {
      AheadIsStrict(s[i].path, s[k].path);
    } else if k < i {
      AheadIsStrict(s[k].path, s[i].path);
    } else if PathAhead(s[i].path, s[k].path) {
      AheadIsStrict(s[i].path, s[k].path);
    }
  }

  lemma {:induction false} PreparedAt(g: Preparer, claims: Claims, s: seq<FileInput>, k: nat)
    requires InputsAhead(s) && KeepsPaths(g, s) && k < |s|
    ensures (exists u :: PreparedAs(g, claims, s, u) && u.path == s[k].path) <==> Prepared(g, claims, s, k).Success?
  {
    if u :| PreparedAs(g, claims, s, u) && u.path == s[k].path {
      var i: nat :| i < |s| && Prepared(g, claims, s, i) == Success(u);
      PreparedFrom(g, claims, s, k, i);
    }
    if Prepared(g, claims, s, k).Success? {
      PreparedFrom(g, claims, s, k, k);
      assert PreparedAs(g, claims, s, Prepared(g, claims, s, k).value);
    }
  }

  lemma {:induction false} PreparedBefore(g: Preparer, claims: Claims, s: seq<FileInput>, k: nat, u: UnitFile)
    requires InputsAhead(s) && KeepsPaths(g, s) && k < |s|
    ensures PreparedAs(g, claims, s[..k], u) <==> PreparedAs(g, claims, s, u) && PathAhead(u.path, s[k].path)
  {
    if PreparedAs(g, claims, s[..k], u) {
      var i: nat :| i < k && Prepared(g, claims, s[..k], i) == Success(u);
      PreparedInPrefix(g, claims, s, k, i);
      PreparedFrom(g, claims, s, k, i);
    }
    if PreparedAs(g, claims, s, u) && PathAhead(u.path, s[k].path) {
      var i: nat :| i < |s| && Prepared(g, claims, s, i) == Success(u);
      PreparedFrom(g, claims, s, k, i);
      PreparedInPrefix(g, claims, s, k, i);
    }
  }

  // ----- the preparation of a plan

  ghost predicate SoundInputs(files: seq<FileInput>) {
    forall f :: f in files ==> f.path.Sound() && f.value.Valid()
  }

  lemma PathsAreKept(sensitive: Sensitivity, policy: Policy, s: seq<FileInput>)
    requires SoundInputs(s)
    ensures KeepsPaths(PreparerOf(sensitive, policy), s)
  {
    forall f, seen | f in s && PreparerOf(sensitive, policy)(f, seen).Success?
      ensures PreparerOf(sensitive, policy)(f, seen).value.path == f.path
    {
      PreparedFileValid(sensitive, f, policy, seen);
    }
  }

  lemma {:induction false} AdmittedStep(sensitive: Sensitivity, policy: Policy, files: seq<FileInput>, u: UnitFile)
    requires files != []
    ensures var n := |files| - 1;
      u in PrepareAll(sensitive, policy, files).included <==>
      || u in PrepareAll(sensitive, policy, files[..n]).included
      || Prepared(PreparerOf(sensitive, policy), ClaimsOf(sensitive, policy), files, n) == Success(u)
  {
  }

  lemma {:induction false} AdmittedSomewhere(sensitive: Sensitivity, policy: Policy, files: seq<FileInput>, u: UnitFile)
    ensures u in PrepareAll(sensitive, policy, files).included <==>
      PreparedAs(PreparerOf(sensitive, policy), ClaimsOf(sensitive, policy), files, u)
  {
    if files != [] {
      AdmittedSomewhere(sensitive, policy, files[..|files| - 1], u);
      AdmittedStep(sensitive, policy, files, u);
      PreparedStep(PreparerOf(sensitive, policy), ClaimsOf(sensitive, policy), files, u);
    }
  }

  /** The claimed anchors are those of the admitted files. */
  lemma {:induction false} ClaimedAnchors(sensitive: Sensitivity, policy: Policy, files: seq<FileInput>, a: string)
    requires SoundInputs(files)
    ensures var p := PrepareAll(sensitive, policy, files); a in p.seen <==> exists u :: u in p.included && a in u.anchors
  {
    if files != [] {
      var n := |files| - 1;
      ClaimedAnchors(sensitive, policy, files[..n], a);
      PreparedFileValid(sensitive, files[n], policy, PrepareAll(sensitive, policy, files[..n]).seen);
    }
  }

  ghost predicate Selected(sensitive: Sensitivity, policy: Policy, f: FileInput) {
    forall reason :: !SelectedFor(sensitive, f, policy, reason)
  }

  /** A selected file with roles and anchors of its own is admitted unless one of its anchors is in use. */
  lemma AdmittedUnlessUsed(sensitive: Sensitivity, policy: Policy, f: FileInput, seen: set<string>)
    requires Selected(sensitive, policy, f) && !RoleTwice(f.objects) && !AnchorTwice(f.anchors)
    ensures PrepareFile(sensitive, f, policy, seen).0.Success? <==> !Used(f.anchors, seen)
  {
    forall reason ensures SelectionReason(sensitive, f, policy) != Some(reason) {
      SelectionIsTold(sensitive, f, policy, reason);
    }
    assert SelectionReason(sensitive, f, policy).None?;
    AdmissionIsTold(f, seen);
  }

  ghost predicate ClaimedAhead(files: seq<UnitFile>, f: FileInput) {
    exists u, a :: u in files && PathAhead(u.path, f.path) && a in u.anchors && a in f.anchors
  }

  ghost predicate AdmittedAs(files: seq<UnitFile>, path: ChangedPath) {
    exists u :: u in files && u.path == path
  }

  lemma InputsApart(files: seq<FileInput>)
    requires ValidInputs(files)
    ensures Distinct(files)
  {
    var paths := Map(NewPathOf, Map(InputPath, files));
    forall i, j | 0 <= i < j < |files| ensures files[i] != files[j] {
      assert paths[i] != paths[j];
    }
  }

  lemma {:induction false} InputsInOrder(files: seq<FileInput>)
    requires ValidInputs(files)
    ensures InputsAhead(SortBy(ByInputPath, files)) && SoundInputs(SortBy(ByInputPath, files))
  {
    var s := SortBy(ByInputPath, files);
    InputsUntied(files);
    InputsApart(files);
    PathOrder();
    SortByStrict(ByInputPath, files);
    SameElements(files, s);
    forall i, j | 0 <= i < j < |s| ensures PathAhead(s[i].path, s[j].path) {
      assert ByInputPath(s[i], s[j]);
      PathsAreTold(s[i].path, s[j].path);
    }
  }

  lemma {:induction false} AdmittedAt(sensitive: Sensitivity, policy: Policy, s: seq<FileInput>, k: nat)
    requires SoundInputs(s) && InputsAhead(s) && k < |s|
    ensures AdmittedAs(PrepareAll(sensitive, policy, s).included, s[k].path) <==>
      Prepared(PreparerOf(sensitive, policy), ClaimsOf(sensitive, policy), s, k).Success?
  {
    PathsAreKept(sensitive, policy, s);
    PreparedAt(PreparerOf(sensitive, policy), ClaimsOf(sensitive, policy), s, k);
    forall u ensures u in PrepareAll(sensitive, policy, s).included <==>
        PreparedAs(PreparerOf(sensitive, policy), ClaimsOf(sensitive, policy), s, u) {
      AdmittedSomewhere(sensitive, policy, s, u);
    }
  }

  /** The files admitted before input `k` are the admitted files ahead of it. */
  lemma {:induction false} AdmittedBefore(sensitive: Sensitivity, policy: Policy, s: seq<FileInput>, k: nat, u: UnitFile)
    requires SoundInputs(s) && InputsAhead(s) && k < |s|
    ensures u in PrepareAll(sensitive, policy, s[..k]).included <==>
      u in PrepareAll(sensitive, policy, s).included && PathAhead(u.path, s[k].path)
  {
    AdmittedSomewhere(sensitive, policy, s, u);
    AdmittedSomewhere(sensitive, policy, s[..k], u);
    PathsAreKept(sensitive, policy, s);
    PreparedBefore(PreparerOf(sensitive, policy), ClaimsOf(sensitive, policy), s, k, u);
  }

  lemma {:induction false} ClaimedBefore(sensitive: Sensitivity, policy: Policy, s: seq<FileInput>, k: nat, before: Preparation, all: Preparation)
    requires SoundInputs(s) && InputsAhead(s) && k < |s|
    requires before == PrepareAll(sensitive, policy, s[..k]) && all == PrepareAll(sensitive, policy, s)
    ensures Used(s[k].anchors, before.seen) <==> ClaimedAhead(all.included, s[k])
  {
    forall a ensures a in before.seen <==> exists u :: u in before.included && a in u.anchors {
      ClaimedAnchors(sensitive, policy, s[..k], a);
    }
    forall u ensures u in before.included <==> u in all.included && PathAhead(u.path, s[k].path) {
      AdmittedBefore(sensitive, policy, s, k, u);
    }
    UsedAhead(s[k], before, all);
  }

  lemma UsedAhead(f: FileInput, before: Preparation, all: Preparation)
    requires forall a :: a in before.seen <==> exists u :: u in before.included && a in u.anchors
    requires forall u :: u in before.included <==> u in all.included && PathAhead(u.path, f.path)
    ensures Used(f.anchors, before.seen) <==> ClaimedAhead(all.included, f)
  {
  }

  /** An anchor goes to the first file that claims it: a selected file with roles and anchors of its own is admitted if
      and only if no admitted file ahead of it in path order has one of its anchors. */
  lemma {:induction false} AnchorsGoToTheFirst(sensitive: Sensitivity, policy: Policy, l: Limits, files: seq<FileInput>, f: FileInput)
    requires Buildable(policy, l, files) && f in files && Selected(sensitive, Normalized(policy), f)
    requires !RoleTwice(f.objects) && !AnchorTwice(f.anchors)
    ensures AdmittedAs(Admitted(sensitive, policy, files), f.path) <==> !ClaimedAhead(Admitted(sensitive, policy, files), f)
  {
    var s := SortBy(ByInputPath, files);
    InputsInOrder(files);
    SameElements(files, s);
    var k :| 0 <= k < |s| && s[k] == f;
    var before := PrepareAll(sensitive, Normalized(policy), s[..k]);
    AdmittedUnlessUsed(sensitive, Normalized(policy), f, before.seen);
    AdmittedAt(sensitive, Normalized(policy), s, k);
    ClaimedBefore(sensitive, Normalized(policy), s, k, before, PrepareAll(sensitive, Normalized(policy), s));
  }
}
