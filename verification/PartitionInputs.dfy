/** Review files, selection policy and limits (crates/revoot-core/src/partition.rs, lines 13-284
    and 1129-1252; crates/revoot-core/src/snapshot.rs, lines 564-625). */
module PartitionInputs {
  import opened Wrappers
  import opened Words
  import opened ChangedPaths
  import opened Sorting
  import Sequences
  import Strings
  import Texts

  const MAX_POLICY_PATTERNS := 1024
  const MAX_PATTERN_BYTES := 1024
  const MAX_PLAN_FILES := 100_000
  const LOW_SIGNAL_BUDGET_DIVISOR := 10
  const MAX_LOW_SIGNAL_BYTES := 64 * 1024

  // ----- review files

  datatype FileClass = Text | Generated | Binary | UnsupportedEncoding

  datatype Tier = Low | Standard | High {
    function Rank(): nat {
      match this case Low => 0 case Standard => 1 case High => 2
    }
  }

  datatype ValueReason =
    | BinaryArtifact | UnsupportedEncodingArtifact | GeneratedArtifact | Lockfile | SnapshotArtifact
    | Documentation | TestCode | SourceCode | Configuration | DependencyManifest | BuildOrDeployment
    | PublicInterface | DatabaseMigration | SensitiveSubsystem | DeletedFile | ConflictMarker
    | CredentialMaterial | OtherText

  datatype ReviewValue = ReviewValue(tier: Tier, score: u8, reasons: set<ValueReason>) {
    predicate Valid() {
      && reasons != {}
      && match tier
         case Low => score < 50
         case Standard => 50 <= score < 200
         case High => score >= 200
    }
  }

  datatype Role = ExactDiff | OldBlob | NewBlob | BoundedContext {
    function Rank(): nat {
      match this case ExactDiff => 0 case OldBlob => 1 case NewBlob => 2 case BoundedContext => 3
    }
  }

  datatype ReviewObject = ReviewObject(role: Role, content: string, size: u64)

  /** The derived order: role, content digest, size. */
  predicate ObjectLess(a: ReviewObject, b: ReviewObject) {
    if a.role != b.role then a.role.Rank() < b.role.Rank()
    else if a.content != b.content then Strings.Less(a.content, b.content)
    else a.size < b.size
  }

  lemma ObjectLessTransitive(a: ReviewObject, b: ReviewObject, c: ReviewObject)
    requires ObjectLess(a, b) && ObjectLess(b, c)
    ensures ObjectLess(a, c)
  {
    Strings.LessIsTotalOrder();
  }

  lemma ObjectOrder()
    ensures StrictTotal(ObjectLess) && StrictWeak(ObjectLess)
  {
    forall a, b, c | ObjectLess(a, b) && ObjectLess(b, c) ensures ObjectLess(a, c) { ObjectLessTransitive(a, b, c); }
    forall a, b ensures !ObjectLess(a, a) && (a == b || ObjectLess(a, b) || ObjectLess(b, a)) {
      Strings.LessTotal(a.content, b.content);
    }
    TotalIsWeak(ObjectLess);
  }

  datatype FileInput = FileInput(
    path: ChangedPath, fileClass: FileClass, value: ReviewValue, objects: seq<ReviewObject>, anchors: seq<string>)

  /** An admissible file: canonically ordered objects and anchors, and its byte count. */
  datatype UnitFile = UnitFile(
    path: ChangedPath, fileClass: FileClass, value: ReviewValue, objects: seq<ReviewObject>, anchors: seq<string>, bytes: u64)

  function TotalBytes(objects: seq<ReviewObject>): nat {
    if objects == [] then 0 else objects[0].size + TotalBytes(objects[1..])
  }

  lemma {:induction false} TotalBytesConcat(a: seq<ReviewObject>, b: seq<ReviewObject>)
    ensures TotalBytes(a + b) == TotalBytes(a) + TotalBytes(b)
  {
    if a == [] {
      assert a + b == b;
    } else {
      assert (a + b)[1..] == a[1..] + b;
      TotalBytesConcat(a[1..], b);
    }
  }

  lemma {:induction false} TotalBytesPermutation(a: seq<ReviewObject>, b: seq<ReviewObject>)
    requires multiset(a) == multiset(b)
    ensures TotalBytes(a) == TotalBytes(b)
  {
    if a == [] {
      SameElements(a, b);
    } else {
      var i := Sequences.TakeOut(a, b);
      TotalBytesPermutation(a[1..], b[..i] + b[i + 1..]);
      TotalBytesConcat(b[..i], b[i + 1..]);
      TotalBytesConcat(b[..i] + [a[0]], b[i + 1..]);
      TotalBytesConcat(b[..i], [a[0]]);
    }
  }

  /** `total_bytes`: a checked sum of sizes overflows exactly when the sum is too large. */
  function CheckedTotal(objects: seq<ReviewObject>): Option<u64> {
    if TotalBytes(objects) <= U64_MAX then Some(TotalBytes(objects)) else None
  }

  predicate HasExactDiff(objects: seq<ReviewObject>) {
    exists i :: 0 <= i < |objects| && objects[i].role == ExactDiff
  }

  // ----- policy and limits

  datatype Policy = Policy(
    version: string,
    includedPaths: set<string>, includedPrefixes: seq<string>, includedSuffixes: seq<string>,
    excludedPaths: set<string>, excludedPrefixes: seq<string>, excludedSuffixes: seq<string>,
    excludedBasenamePrefixes: seq<string>,
    includeGenerated: bool, maxFileBytes: u64)

  datatype Limits = Limits(
    maxFiles: u32, maxTotalBytes: u64, maxWorkUnits: u32,
    maxFilesPerUnit: u32, maxBytesPerUnit: u64, maxAnchorsPerUnit: u32)
  {
    predicate Valid() {
      && 0 < maxFiles <= MAX_PLAN_FILES
      && 0 < maxTotalBytes
      && 0 < maxWorkUnits
      && 0 < maxFilesPerUnit <= maxFiles
      && 0 < maxBytesPerUnit <= maxTotalBytes
      && 0 < maxAnchorsPerUnit
    }
  }

  predicate LabelChar(c: char) {
    'a' <= c <= 'z' || 'A' <= c <= 'Z' || '0' <= c <= '9' || c in "-_./:"
  }

  predicate ValidLabel(s: string) {
    s != "" && |s| <= 128 && forall c :: c in s ==> LabelChar(c)
  }

  ghost predicate ValidPatterns(patterns: seq<string>) {
    && (forall p :: p in patterns ==> p != "" && Texts.ByteLength(p) <= MAX_PATTERN_BYTES && forall c :: c in p ==> !Texts.IsControl(c))
    && Distinct(patterns)
  }

  function PatternCount(p: Policy): nat {
    |p.includedPaths| + |p.includedPrefixes| + |p.includedSuffixes| + |p.excludedPaths|
    + |p.excludedPrefixes| + |p.excludedSuffixes| + |p.excludedBasenamePrefixes|
  }

  ghost predicate ValidPolicy(p: Policy) {
    && ValidLabel(p.version)
    && PatternCount(p) <= MAX_POLICY_PATTERNS
    && ValidPatterns(p.includedPrefixes) && ValidPatterns(p.includedSuffixes)
    && ValidPatterns(p.excludedPrefixes) && ValidPatterns(p.excludedSuffixes)
    && ValidPatterns(p.excludedBasenamePrefixes)
    && p.maxFileBytes != 0
  }

  datatype ConfigurationError =
    | PolicyVersion | PatternCountError | Pattern | FileBytes | Files | TotalBytesError | WorkUnits
    | FilesPerWorkUnit | BytesPerWorkUnit | AnchorsPerWorkUnit

  method ValidatePatterns(patterns: seq<string>) returns (ok: bool)
    ensures ok <==> ValidPatterns(patterns)
  {
    var unique: set<string> := {};
    for i := 0 to |patterns|
      invariant ValidPatterns(patterns[..i])
      invariant forall p :: p in unique <==> p in patterns[..i]
    {
      var p := patterns[i];
      assert patterns[..i + 1] == patterns[..i] + [p];
      if p == "" || Texts.ByteLength(p) > MAX_PATTERN_BYTES || exists c :: c in p && Texts.IsControl(c) {
        assert p in patterns;
        return false;
      }
      if p in unique {
        var j :| 0 <= j < i && patterns[..i][j] == p;
        assert patterns[j] == patterns[i];
        return false;
      }
      unique := unique + {p};
    }
    assert patterns[..|patterns|] == patterns;
    return true;
  }

  /** Up to 128 ASCII letters, digits and signs of a short list. */
  predicate Label(s: string) {
    1 <= |s| <= 128 && forall i :: 0 <= i < |s| ==>
      (s[i] as int in {45, 46, 47, 58, 95} || 48 <= s[i] as int <= 57 || 65 <= s[i] as int <= 90 || 97 <= s[i] as int <= 122)
  }

  lemma LabelIsTold(s: string)
    ensures ValidLabel(s) <==> Label(s)
  {
    assert forall c :: c in "-_./:" <==> c in ['-', '_', '.', '/', ':'];
    assert forall i :: 0 <= i < |s| ==> s[i] in s;
    forall c ensures LabelChar(c) <==>
        (c as int in {45, 46, 47, 58, 95} || 48 <= c as int <= 57 || 65 <= c as int <= 90 || 97 <= c as int <= 122) { }
  }

  /** `e` names the first rule of a policy that is not valid. */
  ghost predicate FirstBadRule(p: Policy, e: ConfigurationError) {
    if !Label(p.version) then e == PolicyVersion
    else if PatternCount(p) > 1024 then e == PatternCountError
    else if !OnlyValidPatterns(p) then e == Pattern
    else p.maxFileBytes == 0 && e == FileBytes
  }

  ghost predicate OnlyValidPatterns(p: Policy) {
    && ValidPatterns(p.includedPrefixes) && ValidPatterns(p.includedSuffixes)
    && ValidPatterns(p.excludedPrefixes) && ValidPatterns(p.excludedSuffixes)
    && ValidPatterns(p.excludedBasenamePrefixes)
  }

  /** `e` names the first limit that is not usable. */
  predicate FirstBadLimit(l: Limits, e: ConfigurationError) {
    var files := 0 < l.maxFiles <= 100_000;
    var unitFiles := 0 < l.maxFilesPerUnit <= l.maxFiles;
    var unitBytes := 0 < l.maxBytesPerUnit <= l.maxTotalBytes;
    match e
    case Files => !files
    case TotalBytesError => files && l.maxTotalBytes == 0
    case WorkUnits => files && l.maxTotalBytes > 0 && l.maxWorkUnits == 0
    case FilesPerWorkUnit => files && l.maxTotalBytes > 0 && l.maxWorkUnits > 0 && !unitFiles
    case BytesPerWorkUnit => files && l.maxTotalBytes > 0 && l.maxWorkUnits > 0 && unitFiles && !unitBytes
    case AnchorsPerWorkUnit => files && l.maxWorkUnits > 0 && unitFiles && unitBytes && l.maxAnchorsPerUnit == 0
    case _ => false
  }

  /** `ReviewSelectionPolicy::validate`. */
  method ValidatePolicy(p: Policy) returns (e: Option<ConfigurationError>)
    ensures e.None? <==> ValidPolicy(p)
    ensures e.Some? ==> FirstBadRule(p, e.value)
  {
    LabelIsTold(p.version);
    if !ValidLabel(p.version) {
      return Some(PolicyVersion);
    }
    if PatternCount(p) > MAX_POLICY_PATTERNS {
      return Some(PatternCountError);
    }
    var a := ValidatePatterns(p.includedPrefixes);
    var b := ValidatePatterns(p.includedSuffixes);
    var c := ValidatePatterns(p.excludedPrefixes);
    var d := ValidatePatterns(p.excludedSuffixes);
    var f := ValidatePatterns(p.excludedBasenamePrefixes);
    if !(a && b && c && d && f) {
      return Some(Pattern);
    }
    if p.maxFileBytes == 0 {
      return Some(FileBytes);
    }
    return None;
  }

  /** `PartitionLimits::validate`: the first unusable dimension. */
  function LimitsIssue(l: Limits): (e: Option<ConfigurationError>)
    ensures e.None? <==> l.Valid()
    ensures e.Some? ==> FirstBadLimit(l, e.value)
  {
    if l.maxFiles == 0 || l.maxFiles > MAX_PLAN_FILES then Some(Files)
    else if l.maxTotalBytes == 0 then Some(TotalBytesError)
    else if l.maxWorkUnits == 0 then Some(WorkUnits)
    else if l.maxFilesPerUnit == 0 || l.maxFilesPerUnit > l.maxFiles then Some(FilesPerWorkUnit)
    else if l.maxBytesPerUnit == 0 || l.maxBytesPerUnit > l.maxTotalBytes then Some(BytesPerWorkUnit)
    else if l.maxAnchorsPerUnit == 0 then Some(AnchorsPerWorkUnit)
    else None
  }

  // ----- selection

  datatype OmissionReason =
    | NotIncludedPolicy | ExactPathPolicy | PrefixPolicy | SuffixPolicy | GeneratedPolicy | BinaryFile
    | UnsupportedEncodingFile | FileTooLarge | MissingExactDiff | EmptyObjectSet | DuplicateObjectRole
    | DuplicateAnchor | InputByteOverflow | FileBudget | TotalByteBudget | LowSignalBudget
    | WorkUnitBudget | WorkUnitFileCapacity | WorkUnitByteCapacity | WorkUnitAnchorCapacity

  datatype Omitted = Omitted(path: ChangedPath, reason: OmissionReason)

  predicate AnyPrefix(path: string, prefixes: seq<string>) {
    exists i :: 0 <= i < |prefixes| && prefixes[i] <= path
  }

  predicate AnySuffix(path: string, suffixes: seq<string>) {
    exists i :: 0 <= i < |suffixes| && Texts.StripSuffix(path, suffixes[i]).Some?
  }

  /** Paths never shown to a model; the literal table behind it is a parameter of the model. */
  type Sensitivity = string -> bool

  /** The paths a policy is about: all of them, unless it names some. */
  predicate Wanted(p: Policy, path: string) {
    (p.includedPaths == {} && p.includedPrefixes == [] && p.includedSuffixes == [])
    || path in p.includedPaths || AnyPrefix(path, p.includedPrefixes) || AnySuffix(path, p.includedSuffixes)
  }

  /** The paths a policy keeps out. */
  predicate Unwanted(p: Policy, path: string) {
    path in p.excludedPaths || AnyPrefix(path, p.excludedPrefixes) || AnySuffix(path, p.excludedSuffixes)
    || AnyPrefix(Texts.AfterLast(path, '/'), p.excludedBasenamePrefixes)
  }

  /** Files that can be reviewed: text, or generated text that the policy includes. */
  predicate Readable(c: FileClass, p: Policy) {
    c == Text || (c == Generated && p.includeGenerated)
  }

  /** `selection_reason`: the first rule that excludes the file, and none exactly for files that pass the
      path, class, object and size rules. */
  function SelectionReason(sensitive: Sensitivity, f: FileInput, p: Policy): (r: Option<OmissionReason>)
    ensures r.None? <==>
      && !sensitive(f.path.newPath) && Wanted(p, f.path.newPath) && !Unwanted(p, f.path.newPath)
      && Readable(f.fileClass, p)
      && f.objects != [] && HasExactDiff(f.objects) && TotalBytes(f.objects) <= p.maxFileBytes
  {
    var path := f.path.newPath;
    var hasIncludes := p.includedPaths != {} || p.includedPrefixes != [] || p.includedSuffixes != [];
    var included := path in p.includedPaths || AnyPrefix(path, p.includedPrefixes) || AnySuffix(path, p.includedSuffixes);
    if sensitive(path) then Some(ExactPathPolicy)
    else if hasIncludes && !included then Some(NotIncludedPolicy)
    else if path in p.excludedPaths then Some(ExactPathPolicy)
    else if AnyPrefix(path, p.excludedPrefixes) then Some(PrefixPolicy)
    else if AnySuffix(path, p.excludedSuffixes) then Some(SuffixPolicy)
    else if AnyPrefix(Texts.AfterLast(path, '/'), p.excludedBasenamePrefixes) then Some(PrefixPolicy)
    else if f.fileClass == Generated && !p.includeGenerated then Some(GeneratedPolicy)
    else if f.fileClass == Binary then Some(BinaryFile)
    else if f.fileClass == UnsupportedEncoding then Some(UnsupportedEncodingFile)
    else if f.objects == [] then Some(EmptyObjectSet)
    else if !HasExactDiff(f.objects) then Some(MissingExactDiff)
    else if CheckedTotal(f.objects).None? then Some(InputByteOverflow)
    else if CheckedTotal(f.objects).value > p.maxFileBytes then Some(FileTooLarge)
    else None
  }

  /** Reasons that are about the path, and reasons that are about the class of the file. */
  predicate PathReason(r: OmissionReason) {
    r.ExactPathPolicy? || r.NotIncludedPolicy? || r.PrefixPolicy? || r.SuffixPolicy?
  }

  predicate ClassReason(r: OmissionReason) {
    r.GeneratedPolicy? || r.BinaryFile? || r.UnsupportedEncodingFile?
  }

  /** Fixed precedence: a path that is kept out hides the class and the contents of the file, and a class
      that is kept out hides its contents. */
  lemma RulesHaveFixedPrecedence(sensitive: Sensitivity, p: Policy, f: FileInput, g: FileInput)
    requires f.path.newPath == g.path.newPath
    ensures var r := SelectionReason(sensitive, f, p);
      && (r.Some? && PathReason(r.value) ==> SelectionReason(sensitive, g, p) == r)
      && (r.Some? && ClassReason(r.value) && f.fileClass == g.fileClass ==> SelectionReason(sensitive, g, p) == r)
      && (r.Some? && PathReason(r.value) <==>
            sensitive(f.path.newPath) || !Wanted(p, f.path.newPath) || Unwanted(p, f.path.newPath))
      && (r.Some? && ClassReason(r.value) <==>
            !sensitive(f.path.newPath) && Wanted(p, f.path.newPath) && !Unwanted(p, f.path.newPath) && !Readable(f.fileClass, p))
  {
  }

  predicate AdjacentEqualRole(objects: seq<ReviewObject>) {
    exists i :: 0 <= i < |objects| - 1 && objects[i].role == objects[i + 1].role
  }

  predicate AdjacentEqual(anchors: seq<string>) {
    exists i :: 0 <= i < |anchors| - 1 && anchors[i] == anchors[i + 1]
  }

  /** The part of `prepare_file` behind selection: canonical order, one object per role, anchors
      nobody used before. The second component is the anchor registry afterwards. */
  function Admit(f: FileInput, seen: set<string>): (Result<UnitFile, Omitted>, set<string>) {
    var objects := SortBy(ObjectLess, f.objects);
    if AdjacentEqualRole(objects) then (Failure(Omitted(f.path, DuplicateObjectRole)), seen)
    else
      var anchors := SortBy(Strings.Less, f.anchors);
      if AdjacentEqual(anchors) || SetOf(anchors) * seen != {} then (Failure(Omitted(f.path, DuplicateAnchor)), seen)
      else if CheckedTotal(objects).None? then (Failure(Omitted(f.path, InputByteOverflow)), seen + SetOf(anchors))
      else (Success(UnitFile(f.path, f.fileClass, f.value, objects, anchors, CheckedTotal(objects).value)), seen + SetOf(anchors))
  }

  /** `prepare_file`. */
  function PrepareFile(sensitive: Sensitivity, f: FileInput, p: Policy, seen: set<string>): (Result<UnitFile, Omitted>, set<string>) {
    var reason := SelectionReason(sensitive, f, p);
    if reason.Some? then (Failure(Omitted(f.path, reason.value)), seen) else Admit(f, seen)
  }

  /** What the checker demands of one file. */
  ghost predicate ValidFile(f: UnitFile) {
    && f.path.Sound() && f.value.Valid()
    && f.objects != [] && HasExactDiff(f.objects)
    && StrictlySorted(ObjectLess, f.objects)
    && StrictlySorted(Strings.Less, f.anchors)
    && TotalBytes(f.objects) == f.bytes
  }

  lemma {:induction false} NoAdjacentMeansStrict<T(!new)>(lt: (T, T) -> bool, s: seq<T>)
    requires StrictTotal(lt) && Sorted(lt, s)
    requires forall i :: 0 <= i < |s| - 1 ==> s[i] != s[i + 1]
    ensures StrictlySorted(lt, s)
  {
    if |s| >= 2 {
      var n := |s| - 1;
      NoAdjacentMeansStrict(lt, s[..n]);
      assert lt(s[n - 1], s[n]);
      forall i | 0 <= i < n ensures lt(s[i], s[n]) {
        if i < n - 1 {
          assert s[..n][i] == s[i] && s[..n][n - 1] == s[n - 1];
          assert lt(s[i], s[n - 1]);
        }
      }
      forall i, j | 0 <= i < j < |s| ensures lt(s[i], s[j]) {
        if j < n {
          assert s[..n][i] == s[i] && s[..n][j] == s[j];
        }
      }
    }
  }

  lemma {:induction false} CanonicalObjects(objects: seq<ReviewObject>)
    requires HasExactDiff(objects)
    ensures var s := SortBy(ObjectLess, objects);
      && s != [] && HasExactDiff(s) && TotalBytes(s) == TotalBytes(objects)
      && (!AdjacentEqualRole(s) ==> StrictlySorted(ObjectLess, s))
  {
    var s := SortBy(ObjectLess, objects);
    TotalBytesPermutation(objects, s);
    SameElements(objects, s);
    var i :| 0 <= i < |objects| && objects[i].role == ExactDiff;
    assert objects[i] in s;
    ObjectOrder();
    SortBySorted(ObjectLess, objects);
    if !AdjacentEqualRole(s) {
      NoAdjacentMeansStrict(ObjectLess, s);
    }
  }

  lemma {:induction false} CanonicalAnchors(anchors: seq<string>)
    ensures var s := SortBy(Strings.Less, anchors);
      !AdjacentEqual(s) ==> StrictlySorted(Strings.Less, s)
  {
    var s := SortBy(Strings.Less, anchors);
    Strings.LessIsStrictTotal();
    SortBySorted(Strings.Less, anchors);
    if !AdjacentEqual(s) {
      NoAdjacentMeansStrict(Strings.Less, s);
    }
  }

  /** How a prepared file relates to its input and to the anchors used before. */
  ghost predicate Prepares(f: FileInput, seen: set<string>, r: Result<UnitFile, Omitted>, after: set<string>) {
    match r
    case Failure(o) => o.path == f.path && after == seen
    case Success(u) =>
      && ValidFile(u)
      && u.path == f.path && u.fileClass == f.fileClass && u.value == f.value
      && multiset(u.objects) == multiset(f.objects)
      && multiset(u.anchors) == multiset(f.anchors)
      && SetOf(u.anchors) * seen == {} && after == seen + SetOf(u.anchors)
  }

  lemma AdmittedFileValid(f: FileInput, seen: set<string>)
    requires f.path.Sound() && f.value.Valid()
    requires HasExactDiff(f.objects) && TotalBytes(f.objects) <= U64_MAX
    ensures Prepares(f, seen, Admit(f, seen).0, Admit(f, seen).1)
  {
    CanonicalObjects(f.objects);
    CanonicalAnchors(f.anchors);
  }

  /** Prepared files pass the checker, and only the two canonical reorderings were applied; a file
      that is omitted registers no anchors. */
  lemma PreparedFileValid(sensitive: Sensitivity, f: FileInput, p: Policy, seen: set<string>)
    requires f.path.Sound() && f.value.Valid()
    ensures Prepares(f, seen, PrepareFile(sensitive, f, p, seen).0, PrepareFile(sensitive, f, p, seen).1)
  {
    if SelectionReason(sensitive, f, p).None? {
      AdmittedFileValid(f, seen);
    }
  }
}
