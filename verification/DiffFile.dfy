/** Reading the hunks of one file: every outcome of the parser, told apart by what the lines are
    (crates/revoot-core/src/diff.rs, lines 225-439 and 607-635). */
module DiffFiles {
  import opened Wrappers
  import opened ChangedPaths
  import opened DiffHeaders
  import opened DiffHunks
  import opened DiffLaws
  import opened DiffPanics
  import opened DiffParsers

  datatype ParsedDiff = ParsedDiff(hunkCount: nat, commentable: seq<CommentableLine>)

  /** One line for each record of each hunk, in order. */
  ghost predicate ReportsAll(lines: seq<CommentableLine>, d: LineDigests, path: ChangedPath, radius: nat, hunks: seq<Hunk>) {
    |lines| == TotalRecords(hunks) && forall i :: 0 <= i < |hunks| ==> ReportsAt(lines, d, path, radius, hunks, i)
  }

  lemma {:induction false} AllAreReported(d: LineDigests, path: ChangedPath, radius: nat, hunks: seq<Hunk>)
    ensures ReportsAll(CommentableLines(d, path, radius, hunks), d, path, radius, hunks)
  {
    forall i | 0 <= i < |hunks| ensures ReportsAt(CommentableLines(d, path, radius, hunks), d, path, radius, hunks, i) {
      HunksAreReported(d, path, radius, hunks, i);
    }
  }

  /** The lines break a diff of this change in the middle of a hunk, with a line that cannot be sliced. */
  ghost predicate BrokenPrint(lines: seq<string>, path: ChangedPath, l: Limits) {
    l.Valid() && path.Sound() && exists s :: BreaksAt(ReaderFor(path.kind, l), s) && lines == s.Render()
  }

  /** What the reader returns for those lines. */
  ghost predicate Panics(r: Result<seq<Hunk>, DiffError>) {
    r.Failure? && r.error.SlicePanic?
  }

  lemma {:induction false} PanicIsBrokenPrint(lines: seq<string>, path: ChangedPath, l: Limits)
    requires l.Valid() && path.Sound() && Panics(ReadAll(ReaderFor(path.kind, l), lines, 0, []))
    ensures BrokenPrint(lines, path, l)
  {
    PanicsExactly(path.kind, l, lines, 0, ReadAll(ReaderFor(path.kind, l), lines, 0, []).error.line);
  }

  lemma {:induction false} BrokenPrintPanics(lines: seq<string>, path: ChangedPath, l: Limits)
    requires BrokenPrint(lines, path, l)
    ensures Panics(ReadAll(ReaderFor(path.kind, l), lines, 0, []))
  {
    var s :| BreaksAt(ReaderFor(path.kind, l), s) && lines == s.Render();
    PanicsExactly(path.kind, l, lines, 0, LineNumber(s.Offset()));
  }

  lemma {:induction false} PanicMeansBroken(lines: seq<string>, path: ChangedPath, l: Limits)
    requires l.Valid() && path.Sound()
    ensures Panics(ReadAll(ReaderFor(path.kind, l), lines, 0, [])) <==> BrokenPrint(lines, path, l)
  {
    if BrokenPrint(lines, path, l) {
      BrokenPrintPanics(lines, path, l);
    } else if Panics(ReadAll(ReaderFor(path.kind, l), lines, 0, [])) {
      PanicIsBrokenPrint(lines, path, l);
    }
  }

  /** The reader prints some hunks and stops behind them with `e`. */
  ghost predicate Refused(lines: seq<string>, path: ChangedPath, l: Limits, e: DiffError) {
    exists hunks, left :: DiffStopsBehind(ReaderFor(path.kind, l), [], hunks, lines, left, 0, e)
  }

  lemma {:induction false} RefusalIsTold(lines: seq<string>, path: ChangedPath, l: Limits, e: DiffError)
    requires ReadAll(ReaderFor(path.kind, l), lines, 0, []) == Failure(e)
    ensures Refused(lines, path, l, e)
  {
    ReaderIsProper(path.kind, l);
    var hunks, left := ReadAllStops(ReaderFor(path.kind, l), lines, 0, [], e);
  }

  /** `parse_gitlab_file_diff` behind the prelude: it succeeds exactly on prints of well-formed diffs,
      and then reports their number of hunks and one commentable line per record, with the digests of the
      record and of its surroundings; it panics exactly on broken prints, and other lines it refuses at the line
      that stops it. */
  method ParseFileDiff(path: ChangedPath, lines: seq<string>, l: Limits, digests: LineDigests)
    returns (ghost hunks: seq<Hunk>, r: Attempt<ParsedDiff, DiffError>)
    ensures r.Done? ==>
      PrintOf(lines, path, l, hunks)
      && r.value == ParsedDiff(|hunks|, CommentableLines(digests, path, l.contextRadius, hunks))
      && ReportsAll(r.value.commentable, digests, path, l.contextRadius, hunks)
    ensures !r.Done? ==> forall hs :: !PrintOf(lines, path, l, hs)
    ensures r.Panicked? <==> BrokenPrint(lines, path, l)
    ensures r.Rejected? ==>
      if l.maxHunks == 0 || l.maxLinesPerHunk == 0 || l.maxCommentableLines == 0 || l.contextRadius > l.maxLinesPerHunk then
        r.error == InvalidLimits
      else if (path.oldPath == path.newPath) == path.kind.Renamed? then r.error == InvalidChangedPath
      else Refused(lines, path, l, r.error)
  {
    hunks := [];
    if !l.Valid() {
      return hunks, Rejected(InvalidLimits);
    }
    if !path.Sound() {
      return hunks, Rejected(InvalidChangedPath);
    }
    ReaderIsProper(path.kind, l);
    var parser := new Parser(path, lines, ReaderFor(path.kind, l), digests);
    assert parser.Rest() == lines;
    var e;
    hunks, e := parser.ParseHunks();
    forall hs ensures ReadAll(ReaderFor(path.kind, l), lines, 0, []) == Success(hs) <==>
        lines == RenderAll(hs) && WellFormedDiff(ReaderFor(path.kind, l), hs) {
      ReadExactly(path.kind, l, lines, 0, hs);
    }
    PanicMeansBroken(lines, path, l);
    if e.Some? {
      RefusalIsTold(lines, path, l, e.value);
    }
    AllAreReported(digests, path, l.contextRadius, hunks);
    r := match e
      case None => Done(ParsedDiff(parser.hunkCount, parser.commentable))
      case Some(SlicePanic(_)) => Panicked
      case Some(error) => Rejected(error);
  }
}
