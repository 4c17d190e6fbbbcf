/** The diff reader as it runs: a parser object that walks a cursor over the lines, one accounting
    object per hunk, and the commentable lines it collects
    (crates/revoot-core/src/diff.rs, lines 267-274, 335-439 and 592-825). */
module DiffParsers {
  import opened Wrappers
  import opened Words
  import opened Digests
  import opened ChangedPaths
  import opened DiffHeaders
  import opened DiffHunks

  datatype CommentableLine = CommentableLine(path: ChangedPath, position: Position, exact: Digest, context: Digest)

  /** The digests of one record, and of a record's place in a window of records. */
  datatype LineDigests = LineDigests(exact: Record -> Digest, context: (nat, nat, seq<Record>) -> Digest)

  function WindowStart(k: nat, radius: nat): nat {
    if radius <= k then k - radius else 0
  }

  function WindowEnd(k: nat, radius: nat, n: nat): nat {
    if k + radius + 1 <= n then k + radius + 1 else n
  }

  /** `context_digest`: at most `radius` records on each side, all of the same hunk. */
  function ContextDigest(d: LineDigests, records: seq<Record>, k: nat, radius: nat): Digest
    requires k < |records|
  {
    var start := WindowStart(k, radius);
    d.context(radius, k - start, records[start..WindowEnd(k, radius, |records|)])
  }

  function CommentableOf(d: LineDigests, path: ChangedPath, radius: nat, records: seq<Record>): (r: seq<CommentableLine>)
    ensures |r| == |records|
    ensures forall k :: 0 <= k < |records| ==> r[k].path == path && r[k].position == records[k].position
  {
    seq(|records|, k requires 0 <= k < |records| =>
      CommentableLine(path, records[k].position, d.exact(records[k]), ContextDigest(d, records, k, radius)))
  }

  /** One commentable line for every record of every hunk, in order. */
  function CommentableLines(d: LineDigests, path: ChangedPath, radius: nat, hunks: seq<Hunk>): (r: seq<CommentableLine>)
    ensures |r| == TotalRecords(hunks)
  {
    if hunks == [] then []
    else
      var n := |hunks| - 1;
      CommentableLines(d, path, radius, hunks[..n]) + CommentableOf(d, path, radius, hunks[n].records)
  }

  /** The records from `start` up to `end` surround record `k`: on each side they reach `radius` records, or
      fewer and the end of the hunk. */
  ghost predicate Surrounds(records: seq<Record>, k: nat, radius: nat, start: nat, end: nat) {
    && start <= k < end <= |records|
    && (k - start == radius || (k - start < radius && start == 0))
    && (end - 1 - k == radius || (end - 1 - k < radius && end == |records|))
  }

  /** The line reports record `k` of a hunk: where it is, the digest of the record itself, and the digest of the
      records around it. */
  ghost predicate Reports(line: CommentableLine, d: LineDigests, path: ChangedPath, radius: nat, records: seq<Record>, k: nat)
    requires k < |records|
  {
    && line.path == path && line.position == records[k].position
    && line.exact == d.exact(records[k])
    && exists start: nat, end: nat :: Surrounds(records, k, radius, start, end) && line.context == d.context(radius, k - start, records[start..end])
  }

  ghost predicate ReportsHunk(lines: seq<CommentableLine>, d: LineDigests, path: ChangedPath, radius: nat, records: seq<Record>) {
    |lines| == |records| && forall k :: 0 <= k < |records| ==> Reports(lines[k], d, path, radius, records, k)
  }

  lemma HunkIsReported(d: LineDigests, path: ChangedPath, radius: nat, records: seq<Record>)
    ensures ReportsHunk(CommentableOf(d, path, radius, records), d, path, radius, records)
  {
    forall k | 0 <= k < |records| ensures Reports(CommentableOf(d, path, radius, records)[k], d, path, radius, records, k) {
      RecordsAreReported(d, path, radius, records, k);
    }
  }

  lemma RecordsAreReported(d: LineDigests, path: ChangedPath, radius: nat, records: seq<Record>, k: nat)
    requires k < |records|
    ensures Reports(CommentableOf(d, path, radius, records)[k], d, path, radius, records, k)
  {
    assert Surrounds(records, k, radius, WindowStart(k, radius), WindowEnd(k, radius, |records|));
  }

  /** The lines of hunk `i` stand behind those of the hunks before it, one for each of its records. */
  ghost predicate ReportsAt(lines: seq<CommentableLine>, d: LineDigests, path: ChangedPath, radius: nat, hunks: seq<Hunk>, i: nat)
    requires i < |hunks|
  {
    var start, records := TotalRecords(hunks[..i]), hunks[i].records;
    start + |records| <= |lines| && ReportsHunk(lines[start..start + |records|], d, path, radius, records)
  }

  lemma {:induction false} HunksAreReported(d: LineDigests, path: ChangedPath, radius: nat, hunks: seq<Hunk>, i: nat)
    requires i < |hunks|
    ensures ReportsAt(CommentableLines(d, path, radius, hunks), d, path, radius, hunks, i)
  {
    var n := |hunks| - 1;
    var lines, before, records := CommentableLines(d, path, radius, hunks), CommentableLines(d, path, radius, hunks[..n]), hunks[i].records;
    HunkIsReported(d, path, radius, records);
    var start := TotalRecords(hunks[..i]);
    if i == n {
      assert lines[start..start + |records|] == CommentableOf(d, path, radius, records);
    } else {
      HunksAreReported(d, path, radius, hunks[..n], i);
      assert hunks[..n][..i] == hunks[..i];
      assert lines[start..start + |records|] == before[start..start + |records|];
    }
  }

  class HunkAccounting {
    const header: HunkHeader
    const headerLine: nat
    var oldSeen: u32
    var newSeen: u32
    var oldLine: u32
    var newLine: u32

    function View(): Accounting reads this {
      Accounting(header, headerLine, oldSeen, newSeen, oldLine, newLine)
    }

    constructor (header: HunkHeader, headerLine: nat)
      ensures View() == Begin(header, headerLine)
    {
      this.header, this.headerLine := header, headerLine;
      oldSeen, newSeen, oldLine, newLine := 0, 0, header.oldRange.start, header.newRange.start;
    }

    method RequireRemaining(side: Side, line: nat) returns (e: Option<DiffError>)
      ensures e == if (if side.Old? then oldSeen < header.oldRange.count else newSeen < header.newRange.count)
                   then None else Some(HunkCountExceeded(line, side))
    {
      var exceeded := match side
        case Old => oldSeen >= header.oldRange.count
        case New => newSeen >= header.newRange.count;
      return if exceeded then Some(HunkCountExceeded(line, side)) else None;
    }

    method ConsumeOld(line: nat) returns (e: Option<DiffError>)
      requires oldSeen < header.oldRange.count
      modifies this
      ensures (View(), e) == old(View()).AdvanceOld(line)
    {
      oldSeen := oldSeen + 1;
      if oldSeen < header.oldRange.count {
        if oldLine == U32_MAX {
          return Some(LineNumberOverflow(line, Old));
        }
        oldLine := oldLine + 1;
      }
      return None;
    }

    method ConsumeNew(line: nat) returns (e: Option<DiffError>)
      requires newSeen < header.newRange.count
      modifies this
      ensures (View(), e) == old(View()).AdvanceNew(line)
    {
      newSeen := newSeen + 1;
      if newSeen < header.newRange.count {
        if newLine == U32_MAX {
          return Some(LineNumberOverflow(line, New));
        }
        newLine := newLine + 1;
      }
      return None;
    }

    method ConsumeContextLine(content: string, line: nat) returns (r: Result<Record, DiffError>)
      modifies this
      ensures (View(), r) == ConsumeContext(old(View()), content, line)
    {
      var e := RequireRemaining(Old, line);
      if e.Some? { return Failure(e.value); }
      e := RequireRemaining(New, line);
      if e.Some? { return Failure(e.value); }
      if oldLine == 0 || newLine == 0 {
        return Failure(InvalidRangeStart(line, if oldLine == 0 then Old else New));
      }
      var position := Context(oldLine, newLine);
      e := ConsumeOld(line);
      if e.Some? { return Failure(e.value); }
      e := ConsumeNew(line);
      if e.Some? { return Failure(e.value); }
      return Success(Record(position, content, false));
    }

    method ConsumeDeletedLine(content: string, line: nat) returns (r: Result<Record, DiffError>)
      modifies this
      ensures (View(), r) == ConsumeDeletion(old(View()), content, line)
    {
      var e := RequireRemaining(Old, line);
      if e.Some? { return Failure(e.value); }
      if oldLine == 0 { return Failure(InvalidRangeStart(line, Old)); }
      var position := Deletion(oldLine);
      e := ConsumeOld(line);
      if e.Some? { return Failure(e.value); }
      return Success(Record(position, content, false));
    }

    method ConsumeAddedLine(content: string, line: nat) returns (r: Result<Record, DiffError>)
      modifies this
      ensures (View(), r) == ConsumeAddition(old(View()), content, line)
    {
      var e := RequireRemaining(New, line);
      if e.Some? { return Failure(e.value); }
      if newLine == 0 { return Failure(InvalidRangeStart(line, New)); }
      var position := Addition(newLine);
      e := ConsumeNew(line);
      if e.Some? { return Failure(e.value); }
      return Success(Record(position, content, false));
    }

    /** `consume`, branch by branch. */
    method ConsumeLine(kind: ChangeKind, text: string, line: nat) returns (r: Result<Record, DiffError>)
      modifies this
      ensures (View(), r) == Consume(kind, old(View()), text, line)
    {
      if text == "" { return Failure(UnexpectedHunkLine(line)); }
      if text[0] as int >= 0x80 { return Failure(SlicePanic(line)); }
      var content := text[1..];
      if text[0] !in " -+" { return Failure(UnexpectedHunkLine(line)); }
      if !Suitable(kind, text[0]) { return Failure(FileChangeLineMismatch(line)); }
      if text[0] == ' ' {
        r := ConsumeContextLine(content, line);
      } else if text[0] == '-' {
        r := ConsumeDeletedLine(content, line);
      } else {
        r := ConsumeAddedLine(content, line);
      }
    }
  }

  datatype MarkerState = NoRecord | Content | Marker

  /** `apply_no_newline_marker`: flags the last record once. */
  method ApplyMarker(records: seq<Record>, state: MarkerState, line: nat) returns (r: Result<seq<Record>, DiffError>)
    requires state == Content ==> records != []
    ensures r == match state
                 case NoRecord => Failure(NoNewlineMarkerWithoutContent(line))
                 case Marker => Failure(DuplicateNoNewlineMarker(line))
                 case Content => Success(Flagged(records))
  {
    match state {
      case NoRecord => return Failure(NoNewlineMarkerWithoutContent(line));
      case Marker => return Failure(DuplicateNoNewlineMarker(line));
      case Content =>
        var last := |records| - 1;
        return Success(records[..last] + [records[last].(noNewline := true)]);
    }
  }

  /** Where reading goes on behind a hunk. */
  lemma {:induction false} ReadAllStep(c: Reader, rest: seq<string>, start: nat, done: seq<Hunk>, h: Hunk, left: seq<string>, end: nat)
    requires rest != [] && ReadAll(c, rest, start, done) == ReadOn(c, rest, start, done)
    requires ReadHunk(c, rest, start).Success? && ReadHunk(c, rest, start).value == (h, left) && end == start + |rest| - |left|
    requires TotalRecords(done) + |h.records| <= c.l.maxCommentableLines
    ensures ReadAll(c, left, end, done + [h]) == ReadAll(c, rest, start, done)
  {
    ReadOnStep(c, rest, start, done);
  }

  class Parser {
    const path: ChangedPath
    const lines: seq<string>
    const reader: Reader
    const digests: LineDigests
    var cursor: nat
    var hunkCount: nat
    var commentable: seq<CommentableLine>

    constructor (path: ChangedPath, lines: seq<string>, reader: Reader, digests: LineDigests)
      ensures this.path == path && this.lines == lines && this.reader == reader && this.digests == digests
      ensures cursor == 0 && hunkCount == 0 && commentable == []
    {
      this.path, this.lines, this.reader, this.digests := path, lines, reader, digests;
      cursor, hunkCount, commentable := 0, 0, [];
    }

    /** The lines in front of the cursor. */
    function Rest(): seq<string>
      requires cursor <= |lines|
      reads this
    {
      lines[cursor..]
    }

    /** What the hunk loop has left to do with the marker state it is in. */
    ghost function Remaining(a: Accounting, records: seq<Record>, state: MarkerState): Result<(seq<Record>, seq<string>), DiffError>
      requires cursor <= |lines|
      requires state == Content ==> records != []
      reads this
    {
      if state == Content then ReadMarker(reader, Rest(), cursor, a, records)
      else Read(reader, Rest(), cursor, a, records)
    }

    lemma RestTail()
      requires cursor < |lines|
      ensures Rest() != [] && Rest()[0] == lines[cursor] && Rest()[1..] == lines[cursor + 1..]
    {
    }

    /** The marker behind the last record, and no second one. */
    method FinishHunk(a: Accounting, records: seq<Record>, state: MarkerState) returns (r: Result<seq<Record>, DiffError>)
      requires cursor <= |lines| && a.Complete()
      requires records != [] && state != NoRecord
      modifies this`cursor
      ensures old(cursor) <= cursor <= |lines|
      ensures var expected := old(Remaining(a, records, state));
        && r.Success? == expected.Success?
        && (r.Failure? ==> r.error == expected.error)
        && (r.Success? ==> (r.value, Rest()) == expected.value)
    {
      var all, end := records, state;
      if cursor < |lines| && lines[cursor] == NO_NEWLINE_MARKER {
        RestTail();
        var marked := ApplyMarker(all, end, LineNumber(cursor));
        if marked.Failure? {
          return Failure(marked.error);
        }
        all, end := marked.value, Marker;
        cursor := cursor + 1;
      }
      assert Read(reader, Rest(), cursor, a, all) == old(Remaining(a, records, state));
      if cursor < |lines| && lines[cursor] == NO_NEWLINE_MARKER {
        RestTail();
        return Failure(DuplicateNoNewlineMarker(LineNumber(cursor)));
      }
      return Success(all);
    }

    /** One turn of the loop of `parse_hunk`: a marker for the last record, or the next record. */
    method ParseHunkLine(accounting: HunkAccounting, records: seq<Record>, state: MarkerState)
      returns (r: Result<(seq<Record>, MarkerState), DiffError>)
      requires Proper(reader)
      requires cursor < |lines| && !accounting.View().Complete()
      requires state == NoRecord <==> records == []
      modifies this`cursor, accounting
      ensures r.Success? ==>
        && cursor == old(cursor) + 1 && r.value.1 != NoRecord && r.value.0 != []
        && Remaining(accounting.View(), r.value.0, r.value.1) == old(Remaining(accounting.View(), records, state))
      ensures r.Failure? ==>
        cursor == old(cursor) && old(Remaining(accounting.View(), records, state)) == Failure(r.error)
    {
      ghost var a, rest := accounting.View(), Rest();
      RestTail();
      var line := LineNumber(cursor);
      MarkerIsPlain();
      assert lines[cursor] != NO_NEWLINE_MARKER ==>
        Read(reader, rest, cursor, a, records) == Remaining(a, records, state);
      var unsupported := reader.foreign(lines[cursor], line);
      if unsupported.Some? {
        return Failure(unsupported.value);
      }
      if IsHunkHeader(lines[cursor]) {
        return Failure(accounting.View().Mismatch());
      }
      if lines[cursor] == NO_NEWLINE_MARKER {
        var marked := ApplyMarker(records, state, line);
        if marked.Failure? {
          return Failure(marked.error);
        }
        cursor := cursor + 1;
        assert Rest() == rest[1..];
        return Success((marked.value, Marker));
      }
      var record := accounting.ConsumeLine(reader.kind, lines[cursor], line);
      if record.Failure? {
        return Failure(record.error);
      }
      var all := records + [record.value];
      if TooManyLines(|all|, reader.l) {
        return Failure(TooManyLinesInHunk(accounting.headerLine));
      }
      cursor := cursor + 1;
      assert Rest() == rest[1..];
      return Success((all, Content));
    }

    /** `parse_hunk`: the records of one hunk, the cursor behind them. */
    method ParseHunk(header: HunkHeader, headerLine: nat) returns (r: Result<seq<Record>, DiffError>)
      requires Proper(reader)
      requires cursor <= |lines| && ValidHeader(header, reader.l)
      modifies this`cursor
      ensures old(cursor) <= cursor <= |lines|
      ensures var expected := old(Read(reader, Rest(), cursor, Begin(header, headerLine), []));
        && r.Success? == expected.Success?
        && (r.Failure? ==> r.error == expected.error)
        && (r.Success? ==> (r.value, Rest()) == expected.value)
    {
      var accounting := new HunkAccounting(header, headerLine);
      var records: seq<Record>, state := [], NoRecord;
      ghost var expected := Remaining(accounting.View(), records, state);
      while !accounting.View().Complete()
        invariant old(cursor) <= cursor <= |lines|
        invariant fresh(accounting)
        invariant state == NoRecord <==> records == []
        invariant records == [] ==> !accounting.View().Complete()
        invariant Remaining(accounting.View(), records, state) == expected
        decreases |lines| - cursor
      {
        if cursor == |lines| {
          return Failure(accounting.View().Mismatch());
        }
        var step := ParseHunkLine(accounting, records, state);
        if step.Failure? {
          return Failure(step.error);
        }
        records, state := step.value.0, step.value.1;
      }
      r := FinishHunk(accounting.View(), records, state);
    }

    /** `append_commentable_lines`. */
    method AppendCommentable(records: seq<Record>) returns (e: Option<DiffError>)
      modifies this`commentable
      ensures e.None? <==> |old(commentable)| + |records| <= reader.l.maxCommentableLines
      ensures e.Some? ==> e.value == TooManyCommentableLines && commentable == old(commentable)
      ensures e.None? ==> commentable == old(commentable) + CommentableOf(digests, path, reader.l.contextRadius, records)
      ensures e.None? ==>
        |commentable| == |old(commentable)| + |records|
        && ReportsHunk(commentable[|old(commentable)|..], digests, path, reader.l.contextRadius, records)
    {
      HunkIsReported(digests, path, reader.l.contextRadius, records);
      if |commentable| + |records| > reader.l.maxCommentableLines {
        return Some(TooManyCommentableLines);
      }
      commentable := commentable + CommentableOf(digests, path, reader.l.contextRadius, records);
      assert commentable[|old(commentable)|..] == CommentableOf(digests, path, reader.l.contextRadius, records);
      return None;
    }

    /** The hunks read so far are what the parser has counted and collected. */
    ghost predicate Collected(hunks: seq<Hunk>) reads this {
      && cursor <= |lines|
      && hunkCount == |hunks|
      && commentable == CommentableLines(digests, path, reader.l.contextRadius, hunks)
    }

    /** The hunk at the cursor: its header and its records. */
    method ParseWholeHunk() returns (r: Result<Hunk, DiffError>)
      requires Proper(reader) && cursor < |lines|
      modifies this`cursor
      ensures old(cursor) < cursor <= |lines| || r.Failure?
      ensures var expected := old(ReadHunk(reader, Rest(), cursor));
        && r.Success? == expected.Success?
        && (r.Failure? ==> r.error == expected.error)
        && (r.Success? ==> (r.value, Rest()) == expected.value)
    {
      RestTail();
      var text, line := lines[cursor], LineNumber(cursor);
      var header := reader.header(text, line);
      if header.Failure? {
        return Failure(header.error);
      }
      ghost var rest := Rest();
      cursor := cursor + 1;
      assert Rest() == rest[1..];
      var records := ParseHunk(header.value, line);
      if records.Failure? {
        return Failure(records.error);
      }
      return Success(Hunk(text, header.value, records.value));
    }

    /** What is checked before a hunk is read. */
    method CheckHunkStart(ghost hunks: seq<Hunk>) returns (e: Option<DiffError>)
      requires cursor < |lines| && hunkCount == |hunks|
      ensures e.None? ==> ReadAll(reader, Rest(), cursor, hunks) == ReadOn(reader, Rest(), cursor, hunks)
      ensures e.Some? ==> ReadAll(reader, Rest(), cursor, hunks) == Failure(e.value)
    {
      RestTail();
      var unsupported := reader.foreign(lines[cursor], LineNumber(cursor));
      if unsupported.Some? {
        return unsupported;
      }
      if !IsHunkHeader(lines[cursor]) {
        return Some(UnexpectedTrailingContent(LineNumber(cursor)));
      }
      return if hunkCount == reader.l.maxHunks then Some(TooManyHunks) else None;
    }

    /** One turn of the loop of `parse_hunks`. */
    method ParseNext(ghost hunks: seq<Hunk>) returns (ghost h: Option<Hunk>, e: Option<DiffError>)
      requires Proper(reader) && cursor < |lines| && Collected(hunks)
      modifies this
      ensures e.None? ==>
        && h.Some? && old(cursor) < cursor && Collected(hunks + [h.value])
        && ReadAll(reader, Rest(), cursor, hunks + [h.value]) == old(ReadAll(reader, Rest(), cursor, hunks))
      ensures e.Some? ==> old(ReadAll(reader, Rest(), cursor, hunks)) == Failure(e.value)
    {
      h := None;
      e := CheckHunkStart(hunks);
      if e.Some? {
        return;
      }
      ghost var rest, start := Rest(), cursor;
      var hunk := ParseWholeHunk();
      if hunk.Failure? {
        return h, Some(hunk.error);
      }
      e := AppendCommentable(hunk.value.records);
      if e.Some? {
        ReadOnStep(reader, rest, start, hunks);
        return;
      }
      hunkCount := hunkCount + 1;
      h := Some(hunk.value);
      assert (hunks + [hunk.value])[..|hunks|] == hunks;
      ReadAllStep(reader, rest, start, hunks, hunk.value, Rest(), cursor);
    }

    /** `parse_hunks`: succeeds exactly when the lines are read as hunks, and then has collected one
        commentable line for each of their records. */
    method ParseHunks() returns (ghost hunks: seq<Hunk>, e: Option<DiffError>)
      requires Proper(reader) && Collected([])
      modifies this
      ensures var expected := old(ReadAll(reader, Rest(), cursor, []));
        && e.None? == expected.Success?
        && (e.Some? ==> e.value == expected.error)
        && (e.None? ==> hunks == expected.value && Collected(hunks) && cursor == |lines|)
    {
      hunks := [];
      ghost var expected := ReadAll(reader, Rest(), cursor, []);
      while cursor < |lines|
        invariant Collected(hunks)
        invariant ReadAll(reader, Rest(), cursor, hunks) == expected
        decreases |lines| - cursor
      {
        ghost var h;
        h, e := ParseNext(hunks);
        if e.Some? {
          return;
        }
        hunks := hunks + [h.value];
      }
      e := if hunkCount == 0 then Some(NoHunks) else None;
    }
  }

  /** The lines are the print of `hunks`, a well-formed diff of a file changed this way. */
  ghost predicate PrintOf(lines: seq<string>, path: ChangedPath, l: Limits, hunks: seq<Hunk>) {
    l.Valid() && path.Sound() && WellFormedDiff(ReaderFor(path.kind, l), hunks) && lines == RenderAll(hunks)
  }
}
