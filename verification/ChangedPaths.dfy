/** Changed paths and their order, and positions inside a changed file
    (crates/revoot-core/src/snapshot.rs, lines 564-625 and 1109-1174). */
module ChangedPaths {
  import opened Words
  import opened Sorting
  import Strings

  datatype ChangeKind = Modified | Renamed | Added | Deleted {
    function Rank(): nat {
      match this case Modified => 0 case Renamed => 1 case Added => 2 case Deleted => 3
    }
  }

  datatype ChangedPath = ChangedPath(oldPath: string, newPath: string, kind: ChangeKind) {
    /** No structural contradiction between the paths and the kind of change. */
    predicate Sound() {
      kind.Renamed? <==> oldPath != newPath
    }
  }

  /** The derived order: old path, new path, kind. */
  predicate PathLess(a: ChangedPath, b: ChangedPath) {
    if a.oldPath != b.oldPath then Strings.Less(a.oldPath, b.oldPath)
    else if a.newPath != b.newPath then Strings.Less(a.newPath, b.newPath)
    else a.kind.Rank() < b.kind.Rank()
  }

  lemma PathLessTransitive(a: ChangedPath, b: ChangedPath, c: ChangedPath)
    requires PathLess(a, b) && PathLess(b, c)
    ensures PathLess(a, c)
  {
    Strings.LessIsTotalOrder();
  }

  lemma PathOrder()
    ensures StrictTotal(PathLess) && StrictWeak(PathLess)
  {
    forall a, b, c | PathLess(a, b) && PathLess(b, c) ensures PathLess(a, c) { PathLessTransitive(a, b, c); }
    forall a, b ensures !PathLess(a, a) && (a == b || PathLess(a, b) || PathLess(b, a)) {
      Strings.LessTotal(a.oldPath, b.oldPath);
      Strings.LessTotal(a.newPath, b.newPath);
    }
    TotalIsWeak(PathLess);
  }

  /** One line of a diff as the host numbers it. */
  datatype Position = Addition(newLine: u32) | Deletion(oldLine: u32) | Context(oldLine: u32, newLine: u32) {
    predicate Valid() {
      (OnOld() ==> oldLine != 0) && (OnNew() ==> newLine != 0)
    }

    predicate OnOld() { !Addition? }

    predicate OnNew() { !Deletion? }

    /** New files only gain lines, deleted files only lose them. */
    predicate Suits(kind: ChangeKind) {
      (kind.Added? ==> Addition?) && (kind.Deleted? ==> Deletion?)
    }
  }
}
