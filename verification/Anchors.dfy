/** Trusted anchors: building and restoring the table, looking identifiers up, and anchoring what the
    diff reader reports (crates/revoot-core/src/snapshot.rs, lines 1109-1378). */
module Anchors {
  import opened Wrappers
  import opened Words
  import opened Digests
  import opened Sorting
  import opened Sequences
  import opened ChangedPaths
  import opened DiffHeaders
  import opened DiffHunks
  import opened DiffParsers
  import Strings

  /** The canonical form of an immutable snapshot identity. */
  type Identity = string

  /** `derive_anchor_id`: a digest of the snapshot and the line. */
  type Derivation = (Identity, CommentableLine) -> string

  /** Different ones of these lines have different digests. */
  ghost predicate CollisionFree(derive: Derivation, s: Identity, lines: seq<CommentableLine>) {
    forall a, b :: a in lines && b in lines && derive(s, a) == derive(s, b) ==> a == b
  }

  datatype TrustedAnchor = TrustedAnchor(id: string, path: ChangedPath, position: Position, exact: Digest, context: Digest) {
    function Line(): CommentableLine { CommentableLine(path, position, exact, context) }
  }

  datatype AnchorError =
    | InvalidPosition | ContradictoryPath | PositionIncompatibleWithFileChange | DuplicateCoordinate | DuplicateAnchorId
    | IdentityMismatch

  predicate ById(a: TrustedAnchor, b: TrustedAnchor) { Strings.Less(a.id, b.id) }

  function IdOf(a: TrustedAnchor): string { a.id }

  function Coordinate(a: TrustedAnchor): (ChangedPath, Position) { (a.path, a.position) }

  // ----- restoring a table

  /** An anchor that is admissible whatever the others are. */
  predicate Genuine(derive: Derivation, s: Identity, a: TrustedAnchor) {
    a.position.Valid() && a.path.Sound() && a.position.Suits(a.path.kind) && a.id == derive(s, a.Line())
  }

  /** The tables `from_anchors` restores. */
  ghost predicate Restorable(derive: Derivation, s: Identity, anchors: seq<TrustedAnchor>) {
    && (forall a :: a in anchors ==> Genuine(derive, s, a))
    && Distinct(Map(Coordinate, anchors))
    && Distinct(Map(IdOf, anchors))
  }

  /** What is wrong with an anchor behind the anchors `before`, in the order of the checks. */
  function Issue(derive: Derivation, s: Identity, before: seq<TrustedAnchor>, a: TrustedAnchor): Option<AnchorError> {
    if !a.position.Valid() then Some(InvalidPosition)
    else if !a.path.Sound() then Some(ContradictoryPath)
    else if !a.position.Suits(a.path.kind) then Some(PositionIncompatibleWithFileChange)
    else if Coordinate(a) in Map(Coordinate, before) then Some(DuplicateCoordinate)
    else if a.id in Map(IdOf, before) then Some(DuplicateAnchorId)
    else if a.id != derive(s, a.Line()) then Some(IdentityMismatch)
    else None
  }

  /** The first anchor with an issue decides. */
  function FirstIssue(derive: Derivation, s: Identity, anchors: seq<TrustedAnchor>): Option<AnchorError> {
    if anchors == [] then None
    else
      var n := |anchors| - 1;
      var earlier := FirstIssue(derive, s, anchors[..n]);
      if earlier.Some? then earlier else Issue(derive, s, anchors[..n], anchors[n])
  }

  lemma RestorableSnoc(derive: Derivation, s: Identity, before: seq<TrustedAnchor>, a: TrustedAnchor)
    ensures Restorable(derive, s, before + [a]) <==> Restorable(derive, s, before) && Issue(derive, s, before, a).None?
  {
    MapSnoc(Coordinate, before, a);
    MapSnoc(IdOf, before, a);
    DistinctSnoc(Map(Coordinate, before), Coordinate(a));
    DistinctSnoc(Map(IdOf, before), a.id);
    assert Map(Coordinate, before + [a]) == Map(Coordinate, before) + [Coordinate(a)];
    assert Map(IdOf, before + [a]) == Map(IdOf, before) + [a.id];
    assert forall x :: x in before + [a] <==> x in before || x == a;
    assert Issue(derive, s, before, a).None? <==>
      Genuine(derive, s, a) && Coordinate(a) !in Map(Coordinate, before) && a.id !in Map(IdOf, before);
  }

  /** A table is restored if and only if every anchor is genuine and no coordinate and no identifier
      is used twice. */
  lemma {:induction false} RestoredExactly(derive: Derivation, s: Identity, anchors: seq<TrustedAnchor>)
    ensures FirstIssue(derive, s, anchors).None? <==> Restorable(derive, s, anchors)
  {
    if anchors == [] {
      assert Map(Coordinate, anchors) == [] && Map(IdOf, anchors) == [];
    } else {
      var n := |anchors| - 1;
      assert anchors == anchors[..n] + [anchors[n]];
      RestoredExactly(derive, s, anchors[..n]);
      RestorableSnoc(derive, s, anchors[..n], anchors[n]);
    }
  }

  /** `from_anchors`: the anchors in identifier order, or the first issue. */
  method FromAnchors(derive: Derivation, s: Identity, anchors: seq<TrustedAnchor>) returns (r: Result<seq<TrustedAnchor>, AnchorError>)
    ensures r == match FirstIssue(derive, s, anchors)
                 case None => Success(SortBy(ById, anchors))
                 case Some(e) => Failure(e)
  {
    var coordinates: set<(ChangedPath, Position)>, ids: set<string> := {}, {};
    for i := 0 to |anchors|
      invariant FirstIssue(derive, s, anchors[..i]).None?
      invariant coordinates == SetOf(Map(Coordinate, anchors[..i])) && ids == SetOf(Map(IdOf, anchors[..i]))
    {
      var a := anchors[i];
      assert anchors[..i + 1][..i] == anchors[..i] && anchors[..i + 1] == anchors[..i] + [a];
      MapSnoc(Coordinate, anchors[..i], a);
      MapSnoc(IdOf, anchors[..i], a);
      var issue :=
        if !a.position.Valid() then Some(InvalidPosition)
        else if !a.path.Sound() then Some(ContradictoryPath)
        else if !a.position.Suits(a.path.kind) then Some(PositionIncompatibleWithFileChange)
        else if (a.path, a.position) in coordinates then Some(DuplicateCoordinate)
        else if a.id in ids then Some(DuplicateAnchorId)
        else if a.id != derive(s, a.Line()) then Some(IdentityMismatch)
        else None;
      if issue.Some? {
        FirstIssueStays(derive, s, anchors, i + 1);
        return Failure(issue.value);
      }
      coordinates, ids := coordinates + {(a.path, a.position)}, ids + {a.id};
    }
    assert anchors[..|anchors|] == anchors;
    return Success(SortBy(ById, anchors));
  }

  lemma {:induction false} FirstIssueStays(derive: Derivation, s: Identity, anchors: seq<TrustedAnchor>, i: nat)
    requires i <= |anchors| && FirstIssue(derive, s, anchors[..i]).Some?
    ensures FirstIssue(derive, s, anchors) == FirstIssue(derive, s, anchors[..i])
    decreases |anchors|
  {
    if i == |anchors| {
      assert anchors[..i] == anchors;
    } else {
      var n := |anchors| - 1;
      assert anchors[..n][..i] == anchors[..i];
      FirstIssueStays(derive, s, anchors[..n], i);
    }
  }

  /** The identifiers of a restored table increase strictly. */
  lemma {:induction false} RestoredIsSorted(derive: Derivation, s: Identity, anchors: seq<TrustedAnchor>)
    requires Restorable(derive, s, anchors)
    ensures StrictlySorted(ById, SortBy(ById, anchors))
  {
    Strings.LessIsTotalOrder();
    forall i, j | 0 <= i < j < |anchors| ensures anchors[i].id != anchors[j].id {
      assert Map(IdOf, anchors)[i] != Map(IdOf, anchors)[j];
    }
    forall x, y | x in anchors && y in anchors && x != y ensures ById(x, y) || ById(y, x) {
      var i :| 0 <= i < |anchors| && anchors[i] == x;
      var j :| 0 <= j < |anchors| && anchors[j] == y;
    }
    SortByStrict(ById, anchors);
  }

  // ----- what is wrong with an anchor, and what a table holds

  /** What each error says of an anchor behind the anchors `before`, given the checks before it. */
  ghost predicate Offends(derive: Derivation, s: Identity, before: seq<TrustedAnchor>, a: TrustedAnchor, e: AnchorError) {
    var zero := match a.position
      case Addition(n) => n == 0
      case Deletion(o) => o == 0
      case Context(o, n) => o == 0 || n == 0;
    var odd := if a.path.oldPath == a.path.newPath then a.path.kind == Renamed else a.path.kind != Renamed;
    var unfit := (a.path.kind == Added && !a.position.Addition?) || (a.path.kind == Deleted && !a.position.Deletion?);
    var taken := exists b :: b in before && b.path == a.path && b.position == a.position;
    var known := exists b :: b in before && b.id == a.id;
    match e
    case InvalidPosition => zero
    case ContradictoryPath => !zero && odd
    case PositionIncompatibleWithFileChange => !zero && !odd && unfit
    case DuplicateCoordinate => !zero && !odd && !unfit && taken
    case DuplicateAnchorId => !zero && !odd && !unfit && !taken && known
    case IdentityMismatch =>
      !zero && !odd && !unfit && !taken && !known && a.id != derive(s, CommentableLine(a.path, a.position, a.exact, a.context))
  }

  lemma {:induction false} TakenIsTold(before: seq<TrustedAnchor>, a: TrustedAnchor)
    ensures Coordinate(a) in Map(Coordinate, before) <==> exists b :: b in before && b.path == a.path && b.position == a.position
  {
    var coordinates := Map(Coordinate, before);
    if b :| b in before && b.path == a.path && b.position == a.position {
      var i :| 0 <= i < |before| && before[i] == b;
      assert coordinates[i] == Coordinate(a);
    }
    if i :| 0 <= i < |before| && coordinates[i] == Coordinate(a) {
      assert before[i] in before;
    }
  }

  lemma {:induction false} KnownIsTold(before: seq<TrustedAnchor>, id: string)
    ensures id in Map(IdOf, before) <==> exists b :: b in before && b.id == id
  {
    var ids := Map(IdOf, before);
    if b :| b in before && b.id == id {
      var i :| 0 <= i < |before| && before[i] == b;
      assert ids[i] == id;
    }
    if i :| 0 <= i < |before| && ids[i] == id {
      assert before[i] in before;
    }
  }

  lemma {:induction false} IssueIsTold(derive: Derivation, s: Identity, before: seq<TrustedAnchor>, a: TrustedAnchor, e: AnchorError)
    ensures Issue(derive, s, before, a) == Some(e) <==> Offends(derive, s, before, a, e)
  {
    TakenIsTold(before, a);
    KnownIsTold(before, a.id);
  }

  /** The first anchor that offends decides the error. */
  lemma {:induction false} FirstIssueIsTold(derive: Derivation, s: Identity, anchors: seq<TrustedAnchor>, e: AnchorError)
    ensures FirstIssue(derive, s, anchors) == Some(e) <==>
      exists i :: 0 <= i < |anchors| && Restorable(derive, s, anchors[..i]) && Offends(derive, s, anchors[..i], anchors[i], e)
  {
    forall i: nat | i < |anchors| && Restorable(derive, s, anchors[..i]) && Offends(derive, s, anchors[..i], anchors[i], e)
      ensures FirstIssue(derive, s, anchors) == Some(e)
    {
      FirstOffence(derive, s, anchors, i, e);
    }
    if FirstIssue(derive, s, anchors) == Some(e) {
      var i := SomeOffence(derive, s, anchors, e);
    }
  }

  lemma {:induction false} FirstOffence(derive: Derivation, s: Identity, anchors: seq<TrustedAnchor>, i: nat, e: AnchorError)
    requires i < |anchors| && Restorable(derive, s, anchors[..i]) && Offends(derive, s, anchors[..i], anchors[i], e)
    ensures FirstIssue(derive, s, anchors) == Some(e)
  {
    RestoredExactly(derive, s, anchors[..i]);
    IssueIsTold(derive, s, anchors[..i], anchors[i], e);
    var upTo := anchors[..i + 1];
    assert upTo[..i] == anchors[..i];
    FirstIssueStays(derive, s, anchors, i + 1);
  }

  lemma {:induction false} SomeOffence(derive: Derivation, s: Identity, anchors: seq<TrustedAnchor>, e: AnchorError) returns (i: nat)
    requires FirstIssue(derive, s, anchors) == Some(e)
    ensures i < |anchors| && Restorable(derive, s, anchors[..i]) && Offends(derive, s, anchors[..i], anchors[i], e)
  {
    var n := |anchors| - 1;
    if FirstIssue(derive, s, anchors[..n]).Some? {
      i := SomeOffence(derive, s, anchors[..n], e);
      assert anchors[..n][..i] == anchors[..i];
    } else {
      i := n;
      RestoredExactly(derive, s, anchors[..n]);
      IssueIsTold(derive, s, anchors[..n], anchors[n], e);
    }
  }

  function LineOf(a: TrustedAnchor): CommentableLine {
    CommentableLine(a.path, a.position, a.exact, a.context)
  }

  /** One anchor for each line, with the identifier of the line; identifiers increase. */
  ghost predicate TableOf(derive: Derivation, s: Identity, lines: seq<CommentableLine>, table: seq<TrustedAnchor>) {
    && multiset(Map(LineOf, table)) == multiset(lines)
    && (forall a :: a in table ==> a.id == derive(s, LineOf(a)))
    && forall i, j :: 0 <= i < j < |table| ==> Strings.Less(table[i].id, table[j].id)
  }

  lemma {:induction false} AnchorsKeepLines(derive: Derivation, s: Identity, lines: seq<CommentableLine>)
    ensures Map(LineOf, Map(AnchorFor(derive, s), lines)) == lines
    ensures forall a :: a in Map(AnchorFor(derive, s), lines) ==> a.id == derive(s, LineOf(a))
  {
    var anchors := Map(AnchorFor(derive, s), lines);
    forall i | 0 <= i < |lines| ensures LineOf(anchors[i]) == lines[i] { }
  }

  lemma {:induction false} SortedTable(derive: Derivation, s: Identity, anchors: seq<TrustedAnchor>, table: seq<TrustedAnchor>)
    requires table == SortBy(ById, anchors)
    requires forall a :: a in anchors ==> a.id == derive(s, LineOf(a))
    ensures multiset(Map(LineOf, table)) == multiset(Map(LineOf, anchors))
    ensures forall a :: a in table ==> a.id == derive(s, LineOf(a))
  {
    SameElements(anchors, table);
    MapPermutation(LineOf, anchors, table);
  }

  lemma {:induction false} TableIsTold(derive: Derivation, s: Identity, lines: seq<CommentableLine>)
    requires FirstIssue(derive, s, Map(AnchorFor(derive, s), lines)).None?
    ensures TableOf(derive, s, lines, SortBy(ById, Map(AnchorFor(derive, s), lines)))
  {
    var anchors := Map(AnchorFor(derive, s), lines);
    RestoredExactly(derive, s, anchors);
    RestoredIsSorted(derive, s, anchors);
    AnchorsKeepLines(derive, s, lines);
    SortedTable(derive, s, anchors, SortBy(ById, anchors));
  }

  // ----- looking identifiers up

  /** The first anchor with an identifier, by a scan. */
  function Scan(anchors: seq<TrustedAnchor>, id: string): Option<TrustedAnchor> {
    if anchors == [] then None else if anchors[0].id == id then Some(anchors[0]) else Scan(anchors[1..], id)
  }

  lemma {:induction false} ScanFinds(anchors: seq<TrustedAnchor>, id: string)
    ensures match Scan(anchors, id)
            case Some(a) => a in anchors && a.id == id
            case None => forall a :: a in anchors ==> a.id != id
  {
    if anchors != [] {
      ScanFinds(anchors[1..], id);
      assert anchors == [anchors[0]] + anchors[1..];
    }
  }

  /** `resolve`: binary search agrees with the scan for every string. */
  method Resolve(anchors: seq<TrustedAnchor>, id: string) returns (r: Option<TrustedAnchor>)
    requires StrictlySorted(ById, anchors)
    ensures r == Scan(anchors, id)
  {
    Strings.LessIsTotalOrder();
    ScanFinds(anchors, id);
    var low, high := 0, |anchors|;
    while low < high
      invariant 0 <= low <= high <= |anchors|
      invariant forall i :: 0 <= i < low ==> Strings.Less(anchors[i].id, id)
      invariant forall i :: high <= i < |anchors| ==> Strings.Less(id, anchors[i].id)
    {
      var middle := low + (high - low) / 2;
      if anchors[middle].id == id {
        assert forall i :: 0 <= i < |anchors| && i != middle ==> anchors[i].id != id;
        return Some(anchors[middle]);
      } else if Strings.Less(anchors[middle].id, id) {
        low := middle + 1;
      } else {
        high := middle;
      }
    }
    return None;
  }

  // ----- building from commentable lines

  function AnchorFor(derive: Derivation, s: Identity): CommentableLine -> TrustedAnchor {
    (line: CommentableLine) => TrustedAnchor(derive(s, line), line.path, line.position, line.exact, line.context)
  }

  function LineCoordinate(line: CommentableLine): (ChangedPath, Position) { (line.path, line.position) }

  /** `build`: derive an identifier for every line, then restore. */
  method Build(derive: Derivation, s: Identity, lines: seq<CommentableLine>) returns (r: Result<seq<TrustedAnchor>, AnchorError>)
    ensures r == match FirstIssue(derive, s, Map(AnchorFor(derive, s), lines))
                 case None => Success(SortBy(ById, Map(AnchorFor(derive, s), lines)))
                 case Some(e) => Failure(e)
    ensures r.Success? ==> TableOf(derive, s, lines, r.value)
  {
    if FirstIssue(derive, s, Map(AnchorFor(derive, s), lines)).None? {
      TableIsTold(derive, s, lines);
    }
    r := FromAnchors(derive, s, Map(AnchorFor(derive, s), lines));
  }

  ghost predicate Anchorable(line: CommentableLine) {
    line.position.Valid() && line.path.Sound() && line.position.Suits(line.path.kind)
  }

  /** Without collisions a new coordinate has a new identifier. */
  lemma {:induction false} NewCoordinateNewId(derive: Derivation, s: Identity, before: seq<CommentableLine>, line: CommentableLine)
    requires CollisionFree(derive, s, before + [line])
    ensures AnchorFor(derive, s)(line).id in Map(IdOf, Map(AnchorFor(derive, s), before)) ==>
      LineCoordinate(line) in Map(LineCoordinate, before)
  {
    var ids := Map(IdOf, Map(AnchorFor(derive, s), before));
    if i :| 0 <= i < |before| && ids[i] == AnchorFor(derive, s)(line).id {
      var all := before + [line];
      assert all[i] == before[i] && all[|before|] == line && all[i] in all && all[|before|] in all;
      assert Map(LineCoordinate, before)[i] == LineCoordinate(line);
    }
  }

  /** Building from lines that are sound in themselves fails only for a repeated coordinate, and for
      every repeated coordinate. */
  lemma {:induction false} BuildFailsForRepeats(derive: Derivation, s: Identity, lines: seq<CommentableLine>)
    requires CollisionFree(derive, s, lines)
    requires forall line :: line in lines ==> Anchorable(line)
    ensures FirstIssue(derive, s, Map(AnchorFor(derive, s), lines)) ==
      if Distinct(Map(LineCoordinate, lines)) then None else Some(DuplicateCoordinate)
  {
    if lines != [] {
      var n := |lines| - 1;
      var before, line := lines[..n], lines[n];
      assert lines == before + [line];
      BuildFailsForRepeats(derive, s, before);
      var f := AnchorFor(derive, s);
      MapSnoc(f, before, line);
      MapSnoc(LineCoordinate, before, line);
      DistinctSnoc(Map(LineCoordinate, before), LineCoordinate(line));
      var anchors := Map(f, lines);
      assert anchors[..n] == Map(f, before);
      SameCoordinates(derive, s, before);
      assert line in lines && Anchorable(line);
      NewCoordinateNewId(derive, s, before, line);
    }
  }

  lemma SameCoordinates(derive: Derivation, s: Identity, lines: seq<CommentableLine>)
    ensures Map(Coordinate, Map(AnchorFor(derive, s), lines)) == Map(LineCoordinate, lines)
  {
  }

  // ----- anchoring what the diff reader reports

  predicate InRange(r: HunkRange, line: nat) { r.start <= line < r.start + r.count }

  /** A position inside the declared ranges of a hunk, on every side it belongs to. */
  predicate Covers(h: HunkHeader, p: Position) {
    (p.OnOld() ==> InRange(h.oldRange, p.oldLine)) && (p.OnNew() ==> InRange(h.newRange, p.newLine))
  }

  lemma {:induction false} CountsInside(records: seq<Record>, k: nat)
    requires k < |records|
    ensures records[k].position.OnOld() ==> OldCount(records[..k]) < OldCount(records)
    ensures records[k].position.OnNew() ==> NewCount(records[..k]) < NewCount(records)
  {
    assert records == (records[..k] + [records[k]]) + records[k + 1..];
    CountsSnoc(records[..k], records[k]);
    CountsMonotone(records[..k] + [records[k]], records[k + 1..]);
  }

  lemma RecordCovered(c: Reader, h: Hunk, k: nat)
    requires Proper(c) && WellFormed(c, h) && k < |h.records|
    ensures var p := h.records[k].position; Covers(h.header, p) && p.Valid() && p.Suits(c.kind)
  {
    RecordNumbers(c.kind, h.header, h.records, k);
    CountsInside(h.records, k);
  }

  lemma RecordsDiffer(c: Reader, h: Hunk, i: nat, j: nat)
    requires WellFormed(c, h) && i < j < |h.records|
    ensures h.records[i].position != h.records[j].position
  {
    RecordNumbers(c.kind, h.header, h.records, i);
    RecordNumbers(c.kind, h.header, h.records, j);
    CountsInside(h.records[..j], i);
    assert h.records[..j][..i] == h.records[..i] && h.records[..j][i] == h.records[i];
  }

  lemma {:induction false} LinesAnchorable(c: Reader, d: LineDigests, path: ChangedPath, radius: nat, hunks: seq<Hunk>, line: CommentableLine)
    returns (i: nat)
    requires Proper(c) && (forall h :: h in hunks ==> WellFormed(c, h)) && path.Sound() && path.kind == c.kind
    requires line in CommentableLines(d, path, radius, hunks)
    ensures Anchorable(line) && line.path == path
    ensures i < |hunks| && Covers(hunks[i].header, line.position)
  {
    var n := |hunks| - 1;
    var last := CommentableOf(d, path, radius, hunks[n].records);
    if line in last {
      var k :| 0 <= k < |last| && last[k] == line;
      RecordCovered(c, hunks[n], k);
      i := n;
    } else {
      i := LinesAnchorable(c, d, path, radius, hunks[..n], line);
    }
  }

  predicate RangesApart(a: HunkRange, b: HunkRange) {
    a.count == 0 || b.count == 0 || a.start + a.count <= b.start || b.start + b.count <= a.start
  }

  predicate HeadersApart(a: HunkHeader, b: HunkHeader) {
    RangesApart(a.oldRange, b.oldRange) && RangesApart(a.newRange, b.newRange)
  }

  /** No two hunks declare a common line on either side. */
  ghost predicate Apart(hunks: seq<Hunk>) {
    forall i, j :: 0 <= i < j < |hunks| ==> HeadersApart(hunks[i].header, hunks[j].header)
  }

  lemma DistinctJoin<T>(a: seq<T>, b: seq<T>)
    requires Distinct(a) && Distinct(b) && forall x :: x in a ==> x !in b
    ensures Distinct(a + b)
  {
    forall i, j | 0 <= i < j < |a + b| ensures (a + b)[i] != (a + b)[j] {
      if i < |a| <= j {
        assert a[i] in a && b[j - |a|] in b;
      }
    }
  }

  lemma HunkCoordinatesDistinct(c: Reader, d: LineDigests, path: ChangedPath, radius: nat, h: Hunk)
    requires WellFormed(c, h)
    ensures Distinct(Map(LineCoordinate, CommentableOf(d, path, radius, h.records)))
  {
    var lines := CommentableOf(d, path, radius, h.records);
    forall i, j | 0 <= i < j < |lines| ensures LineCoordinate(lines[i]) != LineCoordinate(lines[j]) {
      RecordsDiffer(c, h, i, j);
    }
  }

  lemma {:induction false} ApartMeansDistinct(c: Reader, d: LineDigests, path: ChangedPath, radius: nat, hunks: seq<Hunk>)
    requires Proper(c) && (forall h :: h in hunks ==> WellFormed(c, h)) && path.Sound() && path.kind == c.kind
    requires Apart(hunks)
    ensures Distinct(Map(LineCoordinate, CommentableLines(d, path, radius, hunks)))
  {
    if hunks != [] {
      var n := |hunks| - 1;
      var early, last := CommentableLines(d, path, radius, hunks[..n]), CommentableOf(d, path, radius, hunks[n].records);
      ApartMeansDistinct(c, d, path, radius, hunks[..n]);
      HunkCoordinatesDistinct(c, d, path, radius, hunks[n]);
      MapConcat(LineCoordinate, early, last);
      forall x | x in Map(LineCoordinate, early) ensures x !in Map(LineCoordinate, last) {
        LastHunkApart(c, d, path, radius, hunks, x);
      }
      DistinctJoin(Map(LineCoordinate, early), Map(LineCoordinate, last));
    }
  }

  lemma LastHunkApart(c: Reader, d: LineDigests, path: ChangedPath, radius: nat, hunks: seq<Hunk>, x: (ChangedPath, Position))
    requires Proper(c) && (forall h :: h in hunks ==> WellFormed(c, h)) && path.Sound() && path.kind == c.kind
    requires hunks != [] && Apart(hunks)
    requires x in Map(LineCoordinate, CommentableLines(d, path, radius, hunks[..|hunks| - 1]))
    ensures x !in Map(LineCoordinate, CommentableOf(d, path, radius, hunks[|hunks| - 1].records))
  {
    var n := |hunks| - 1;
    var early, last := CommentableLines(d, path, radius, hunks[..n]), CommentableOf(d, path, radius, hunks[n].records);
    var k :| 0 <= k < |early| && Map(LineCoordinate, early)[k] == x;
    assert early[k] in early;
    var i := LinesAnchorable(c, d, path, radius, hunks[..n], early[k]);
    assert HeadersApart(hunks[i].header, hunks[n].header);
    forall m | 0 <= m < |last| ensures Map(LineCoordinate, last)[m] != x {
      RecordCovered(c, hunks[n], m);
    }
  }

  /** The lines of an accepted diff are anchored, one anchor for each, if and only if no position is
      reported twice; otherwise the table is refused for a duplicate coordinate. */
  lemma {:induction false} ParserOutputAnchors(derive: Derivation, s: Identity, d: LineDigests, path: ChangedPath, l: Limits, lines: seq<string>, hunks: seq<Hunk>)
    requires PrintOf(lines, path, l, hunks) && CollisionFree(derive, s, CommentableLines(d, path, l.contextRadius, hunks))
    ensures var reported := CommentableLines(d, path, l.contextRadius, hunks);
      FirstIssue(derive, s, Map(AnchorFor(derive, s), reported)) ==
        if Distinct(Map(LineCoordinate, reported)) then None else Some(DuplicateCoordinate)
  {
    var reported := CommentableLines(d, path, l.contextRadius, hunks);
    ReaderIsProper(path.kind, l);
    forall line | line in reported ensures Anchorable(line) {
      var i := LinesAnchorable(ReaderFor(path.kind, l), d, path, l.contextRadius, hunks, line);
    }
    BuildFailsForRepeats(derive, s, reported);
  }

  /** Diffs whose hunks declare no common line are always anchored. */
  lemma {:induction false} SeparateHunksAnchor(derive: Derivation, s: Identity, d: LineDigests, path: ChangedPath, l: Limits, lines: seq<string>, hunks: seq<Hunk>)
    requires PrintOf(lines, path, l, hunks) && CollisionFree(derive, s, CommentableLines(d, path, l.contextRadius, hunks))
    requires Apart(hunks)
    ensures var anchors := Map(AnchorFor(derive, s), CommentableLines(d, path, l.contextRadius, hunks));
      && FirstIssue(derive, s, anchors).None? && |SortBy(ById, anchors)| == TotalRecords(hunks)
      && StrictlySorted(ById, SortBy(ById, anchors))
  {
    var anchors := Map(AnchorFor(derive, s), CommentableLines(d, path, l.contextRadius, hunks));
    ReaderIsProper(path.kind, l);
    ApartMeansDistinct(ReaderFor(path.kind, l), d, path, l.contextRadius, hunks);
    ParserOutputAnchors(derive, s, d, path, l, lines, hunks);
    RestoredExactly(derive, s, anchors);
    RestoredIsSorted(derive, s, anchors);
    SameElements(anchors, SortBy(ById, anchors));
  }

  /** One line replaced. */
  function ReplacedLine(): Hunk {
    var header := HunkHeader(HunkRange(1, 1), HunkRange(1, 1));
    Hunk(RenderHeader(header, ""), header, [Record(Deletion(1), "a", false), Record(Addition(1), "b", false)])
  }

  function ReplacedTwice(): seq<Hunk> { [ReplacedLine(), ReplacedLine()] }

  /** The reader does not compare hunks with each other: it accepts a diff that replaces the same line
      twice, and that diff cannot be anchored. */
  lemma {:induction false} OverlapIsNotAnchored(derive: Derivation, s: Identity, d: LineDigests, l: Limits, name: string)
    requires l.Valid() && l.maxHunks >= 2 && l.maxLinesPerHunk >= 2 && l.maxCommentableLines >= 4
    requires CollisionFree(derive, s, CommentableLines(d, ChangedPath(name, name, Modified), l.contextRadius, ReplacedTwice()))
    ensures var path, hunks := ChangedPath(name, name, Modified), ReplacedTwice();
      && PrintOf(RenderAll(hunks), path, l, hunks)
      && FirstIssue(derive, s, Map(AnchorFor(derive, s), CommentableLines(d, path, l.contextRadius, hunks))) == Some(DuplicateCoordinate)
  {
    var h, path, hunks := ReplacedLine(), ChangedPath(name, name, Modified), ReplacedTwice();
    ReplacedLineWellFormed(l);
    assert hunks == ([] + [h]) + [h];
    TotalSnoc([], h);
    TotalSnoc([h], h);
    LinesSnoc(d, path, l.contextRadius, [], h);
    LinesSnoc(d, path, l.contextRadius, [h], h);
    assert [] + [h] == [h];
    var reported := CommentableLines(d, path, l.contextRadius, hunks);
    assert Map(LineCoordinate, reported)[0] == Map(LineCoordinate, reported)[2];
    ParserOutputAnchors(derive, s, d, path, l, RenderAll(hunks), hunks);
  }

  lemma {:induction false} LinesSnoc(d: LineDigests, path: ChangedPath, radius: nat, done: seq<Hunk>, h: Hunk)
    ensures CommentableLines(d, path, radius, done + [h]) ==
      CommentableLines(d, path, radius, done) + CommentableOf(d, path, radius, h.records)
  {
    assert (done + [h])[..|done|] == done;
  }

  lemma ReplacedLineWellFormed(l: Limits)
    requires l.maxLinesPerHunk >= 2
    ensures WellFormed(ReaderFor(Modified, l), ReplacedLine())
  {
    var h := ReplacedLine();
    HeaderRoundTrip(h.header, "", 1, l);
    ReplacementFills(h.header, h.records[0], h.records[1]);
    assert h.records == [h.records[0], h.records[1]];
  }

  /** A deletion and an addition fill a hunk of one line on each side. */
  lemma {:induction false} ReplacementFills(h: HunkHeader, deleted: Record, added: Record)
    requires h == HunkHeader(HunkRange(1, 1), HunkRange(1, 1))
    requires deleted.position == Deletion(1) && added.position == Addition(1)
    ensures Fills(Modified, h, [deleted, added])
  {
    assert [] + [deleted] == [deleted] && [deleted] + [added] == [deleted, added];
    WellNumberedSnoc(Modified, h, [], deleted);
    WellNumberedSnoc(Modified, h, [deleted], added);
    CountsSnoc([], deleted);
    CountsSnoc([deleted], added);
  }
}
