/** When reading hunks panics: the slice `&line[1..]` of a hunk line whose first character takes several
    bytes (crates/revoot-core/src/diff.rs, lines 335-405 and 622-631). */
module DiffPanics {
  import opened Wrappers
  import opened ChangedPaths
  import opened DiffHeaders
  import opened DiffHunks

  // ----- inside one hunk

  /** The lines `rest` print the records `more` that start the hunk behind `done` without filling it,
      and go on, at line `n`, with a line that cannot be sliced. */
  ghost predicate Breaks(c: Reader, h: HunkHeader, done: seq<Record>, more: seq<Record>, rest: seq<string>, line: string,
                         left: seq<string>, cursor: nat, n: nat) {
    && rest == RenderBody(more) + ([line] + left) && NonAscii(line)
    && Starts(c.kind, h, done + more) && !Fills(c.kind, h, done + more)
    && !TooManyLines(|done + more|, c.l)
    && n == LineNumber(cursor + |RenderBody(more)|)
  }

  lemma BreaksCons(c: Reader, h: HunkHeader, done: seq<Record>, w: Record, tail: seq<Record>, rest: seq<string>, behind: seq<string>,
                   line: string, left: seq<string>, cursor: nat, n: nat)
    requires Breaks(c, h, done + [w], tail, behind, line, left, cursor + |RenderRecord(w)|, n) && rest == RenderRecord(w) + behind
    ensures Breaks(c, h, done, [w] + tail, rest, line, left, cursor, n)
  {
    BodyCons(w, tail);
    assert rest == RenderRecord(w) + (RenderBody(tail) + ([line] + left));
    assert done + ([w] + tail) == (done + [w]) + tail;
  }

  lemma {:induction false} BreaksHere(c: Reader, a: Accounting, h: HunkHeader, done: seq<Record>, rest: seq<string>, cursor: nat)
    requires Tracks(a, h, done) && !a.Complete() && WellNumbered(c.kind, h, done) && !TooManyLines(|done|, c.l)
    requires rest != [] && NonAscii(rest[0])
    ensures Breaks(c, h, done, [], rest, rest[0], rest[1..], cursor, LineNumber(cursor))
  {
    assert done + [] == done && rest == [] + ([rest[0]] + rest[1..]);
  }

  /** A line that stops the reader in a panic is a line that cannot be sliced. */
  lemma {:induction false} PanicStopsHere(c: Reader, rest: seq<string>, cursor: nat, a: Accounting, done: seq<Record>, n: nat)
    requires Proper(c) && Read(c, rest, cursor, a, done) == Failure(SlicePanic(n))
    requires !PassesLine(c, rest, cursor, a, done)
    ensures !a.Complete() && rest != [] && NonAscii(rest[0]) && n == LineNumber(cursor)
  {
  }

  /** Reading one hunk only panics at such a line behind printed records. */
  lemma {:induction false} ReadBreaks(c: Reader, rest: seq<string>, cursor: nat, a: Accounting, h: HunkHeader, done: seq<Record>, n: nat)
    returns (more: seq<Record>, line: string, left: seq<string>)
    requires Proper(c) && Tracks(a, h, done) && WellNumbered(c.kind, h, done) && !TooManyLines(|done|, c.l)
    requires Read(c, rest, cursor, a, done) == Failure(SlicePanic(n))
    ensures Breaks(c, h, done, more, rest, line, left, cursor, n)
    decreases |rest|
  {
    if PassesLine(c, rest, cursor, a, done) {
      var b, w := ReadOneRecord(c, rest, cursor, a, h, done);
      WellNumberedSnoc(c.kind, h, done, w);
      var k := |RenderRecord(w)|;
      var tail;
      tail, line, left := ReadBreaks(c, rest[k..], cursor + k, b, h, done + [w], n);
      BreaksCons(c, h, done, w, tail, rest, rest[k..], line, left, cursor, n);
      more := [w] + tail;
    } else {
      PanicStopsHere(c, rest, cursor, a, done, n);
      more, line, left := [], rest[0], rest[1..];
      BreaksHere(c, a, h, done, rest, cursor);
    }
  }

  /** And it always panics there. */
  lemma {:induction false} BrokenIsNotRead(c: Reader, rest: seq<string>, cursor: nat, at: nat, h: HunkHeader, more: seq<Record>, line: string,
                                           left: seq<string>, n: nat)
    requires Proper(c) && ValidHeader(h, c.l) && Breaks(c, h, [], more, rest, line, left, cursor, n)
    ensures Read(c, rest, cursor, Begin(h, at), []) == Failure(SlicePanic(n))
  {
    BeginTracks(h, at, c.l);
    assert [] + more == more;
    var end := cursor + |RenderBody(more)|;
    NonAsciiIsUnmarked([line] + left);
    var b := PrintedIsPassed(c, cursor, Begin(h, at), h, [], more, [line] + left, end, more);
    NonAsciiIsNotRead(c, [line] + left, end, b, more);
  }

  lemma NonAsciiIsUnmarked(rest: seq<string>)
    requires rest != [] && NonAscii(rest[0])
    ensures !MarkerFirst(rest)
  {
    assert rest[0][0] != NO_NEWLINE_MARKER[0];
  }

  lemma {:induction false} NonAsciiIsNotRead(c: Reader, rest: seq<string>, cursor: nat, a: Accounting, done: seq<Record>)
    requires Proper(c) && !a.Complete() && rest != [] && NonAscii(rest[0])
    ensures Read(c, rest, cursor, a, done) == Failure(SlicePanic(LineNumber(cursor)))
  {
    assert rest[0][0] != '@' && rest[0][0] != NO_NEWLINE_MARKER[0];
  }

  // ----- in a whole diff

  /** Hunks, an unfinished hunk behind them, and a line that cannot be sliced. */
  datatype Broken = Broken(hunks: seq<Hunk>, text: string, header: HunkHeader, records: seq<Record>, line: string, left: seq<string>) {
    function Render(): seq<string> {
      RenderAll(hunks) + RenderOpen()
    }

    /** The unfinished hunk and everything behind it. */
    function RenderOpen(): seq<string> {
      [text] + (RenderBody(records) + ([line] + left))
    }

    /** How many lines there are in front of the one that cannot be sliced. */
    function Offset(): nat {
      |RenderAll(hunks)| + 1 + |RenderBody(records)|
    }
  }

  /** The hunks are admissible, the header is accepted, and the records behind it are numbered and within
      the limits but do not fill the hunk. */
  ghost predicate BreaksAt(c: Reader, s: Broken) {
    && |s.hunks| < c.l.maxHunks && TotalRecords(s.hunks) <= c.l.maxCommentableLines
    && (forall h :: h in s.hunks ==> WellFormed(c, h))
    && c.header(s.text, 1) == Success(s.header)
    && Starts(c.kind, s.header, s.records) && !Fills(c.kind, s.header, s.records) && !TooManyLines(|s.records|, c.l)
    && NonAscii(s.line)
  }

  /** Such a diff is read up to that line, and there the reader panics. */
  lemma {:induction false} BrokenPanics(c: Reader, s: Broken, cursor: nat, n: nat)
    requires Proper(c) && BreaksAt(c, s) && n == LineNumber(cursor + s.Offset())
    ensures ReadAll(c, s.Render(), cursor, []) == Failure(SlicePanic(n))
  {
    HeaderLine(s.text);
    assert [] + s.hunks == s.hunks;
    var start := cursor + |RenderAll(s.hunks)|;
    OpenPanics(c, s, start, n);
    AllArePassed(c, s.hunks, s.RenderOpen(), cursor, [], start, s.hunks);
  }

  lemma {:induction false} OpenPanics(c: Reader, s: Broken, cursor: nat, n: nat)
    requires Proper(c) && BreaksAt(c, s) && n == LineNumber(cursor + 1 + |RenderBody(s.records)|)
    ensures ReadAll(c, s.RenderOpen(), cursor, s.hunks) == Failure(SlicePanic(n))
  {
    HeaderLine(s.text);
    OpenHunkPanics(c, s, cursor, n);
    HunkStops(c, s.RenderOpen(), cursor, s.hunks);
  }

  lemma {:induction false} OpenHunkPanics(c: Reader, s: Broken, cursor: nat, n: nat)
    requires Proper(c) && BreaksAt(c, s) && n == LineNumber(cursor + 1 + |RenderBody(s.records)|)
    ensures ReadHunk(c, s.RenderOpen(), cursor) == Failure(SlicePanic(n))
  {
    var rest := s.RenderOpen();
    assert rest[0] == s.text && rest[1..] == RenderBody(s.records) + ([s.line] + s.left);
    assert [] + s.records == s.records;
    BrokenIsNotRead(c, rest[1..], cursor + 1, LineNumber(cursor), s.header, s.records, s.line, s.left, n);
  }

  /** A hunk that cannot be read stops the reader. */
  lemma {:induction false} HunkStops(c: Reader, rest: seq<string>, cursor: nat, done: seq<Hunk>)
    requires rest != [] && c.foreign(rest[0], LineNumber(cursor)).None? && IsHunkHeader(rest[0])
    requires |done| != c.l.maxHunks && ReadHunk(c, rest, cursor).Failure?
    ensures ReadAll(c, rest, cursor, done) == Failure(ReadHunk(c, rest, cursor).error)
  {
  }

  /** How a panic is reached: in the first hunk, or behind it. */
  lemma {:induction false} PanicIn(c: Reader, rest: seq<string>, cursor: nat, done: seq<Hunk>, n: nat)
    requires Proper(c) && ReadAll(c, rest, cursor, done) == Failure(SlicePanic(n))
    ensures rest != [] && |done| != c.l.maxHunks
    ensures var r := ReadHunk(c, rest, cursor);
      if r.Failure? then r.error == SlicePanic(n)
      else
        var h, left := r.value.0, r.value.1;
        && TotalRecords(done) + |h.records| <= c.l.maxCommentableLines
        && ReadAll(c, left, cursor + |rest| - |left|, done + [h]) == Failure(SlicePanic(n))
  {
  }

  lemma {:induction false} ReadHunkBreaks(c: Reader, rest: seq<string>, cursor: nat, n: nat)
    returns (header: HunkHeader, records: seq<Record>, line: string, left: seq<string>)
    requires Proper(c) && rest != [] && ReadHunk(c, rest, cursor) == Failure(SlicePanic(n))
    ensures c.header(rest[0], 1) == Success(header) && Breaks(c, header, [], records, rest[1..], line, left, cursor + 1, n)
  {
    header := c.header(rest[0], LineNumber(cursor)).value;
    BeginTracks(header, LineNumber(cursor), c.l);
    records, line, left := ReadBreaks(c, rest[1..], cursor + 1, Begin(header, LineNumber(cursor)), header, [], n);
  }

  /** The lines `rest` print the hunks `more` behind `done` and the rest of the broken diff `s`, which
      breaks at line `n`. */
  ghost predicate Reaches(c: Reader, done: seq<Hunk>, more: seq<Hunk>, s: Broken, rest: seq<string>, cursor: nat, n: nat) {
    && BreaksAt(c, s) && s.hunks == done + more && rest == RenderAll(more) + s.RenderOpen()
    && n == LineNumber(cursor + |RenderAll(more)| + 1 + |RenderBody(s.records)|)
  }

  lemma ReachesCons(c: Reader, done: seq<Hunk>, h: Hunk, tail: seq<Hunk>, s: Broken, left: seq<string>, cursor: nat, n: nat)
    requires Reaches(c, done + [h], tail, s, left, cursor + |RenderHunk(h)|, n)
    ensures Reaches(c, done, [h] + tail, s, RenderHunk(h) + left, cursor, n)
  {
    AllCons(h, tail);
    assert done + ([h] + tail) == (done + [h]) + tail;
    assert RenderHunk(h) + (RenderAll(tail) + s.RenderOpen()) == (RenderHunk(h) + RenderAll(tail)) + s.RenderOpen();
  }

  lemma {:induction false} OpenReaches(c: Reader, done: seq<Hunk>, text: string, header: HunkHeader, records: seq<Record>, line: string,
                                       left: seq<string>, rest: seq<string>, cursor: nat, n: nat) returns (s: Broken)
    requires Partial(c, done) && |done| < c.l.maxHunks && c.header(text, 1) == Success(header)
    requires Breaks(c, header, [], records, rest, line, left, cursor + 1, n)
    ensures Reaches(c, done, [], s, [text] + rest, cursor, n)
  {
    s := Broken(done, text, header, records, line, left);
    assert [] + records == records && done + [] == done && [] + s.RenderOpen() == [text] + rest;
  }

  lemma {:induction false} FirstHunkBreaks(c: Reader, rest: seq<string>, cursor: nat, done: seq<Hunk>, n: nat) returns (s: Broken)
    requires Proper(c) && Partial(c, done) && rest != [] && ReadHunk(c, rest, cursor).Failure?
    requires ReadAll(c, rest, cursor, done) == Failure(SlicePanic(n))
    ensures Reaches(c, done, [], s, rest, cursor, n)
  {
    PanicIn(c, rest, cursor, done, n);
    var header, records, line, left := ReadHunkBreaks(c, rest, cursor, n);
    assert rest == [rest[0]] + rest[1..];
    s := OpenReaches(c, done, rest[0], header, records, line, left, rest[1..], cursor, n);
  }

  /** A panic behind the first hunk. */
  lemma {:induction false} PanicBehind(c: Reader, rest: seq<string>, cursor: nat, done: seq<Hunk>, n: nat) returns (h: Hunk, left: seq<string>)
    requires Proper(c) && Partial(c, done) && rest != [] && ReadHunk(c, rest, cursor).Success?
    requires ReadAll(c, rest, cursor, done) == Failure(SlicePanic(n))
    ensures rest == RenderHunk(h) + left && |left| < |rest| && Partial(c, done + [h])
    ensures ReadAll(c, left, cursor + |RenderHunk(h)|, done + [h]) == Failure(SlicePanic(n))
  {
    PanicIn(c, rest, cursor, done, n);
    h, left := ReadHunk(c, rest, cursor).value.0, ReadHunk(c, rest, cursor).value.1;
    HunkIsSound(c, rest, cursor, h, left);
    TotalSnoc(done, h);
  }

  /** Reading only panics on such diffs. */
  lemma {:induction false} PanicIsBroken(c: Reader, rest: seq<string>, cursor: nat, done: seq<Hunk>, n: nat) returns (more: seq<Hunk>, s: Broken)
    requires Proper(c) && Partial(c, done)
    requires ReadAll(c, rest, cursor, done) == Failure(SlicePanic(n))
    ensures Reaches(c, done, more, s, rest, cursor, n)
    decreases |rest|
  {
    assert rest != [];
    if ReadHunk(c, rest, cursor).Failure? {
      more := [];
      s := FirstHunkBreaks(c, rest, cursor, done, n);
    } else {
      var h, left := PanicBehind(c, rest, cursor, done, n);
      var tail;
      tail, s := PanicIsBroken(c, left, cursor + |RenderHunk(h)|, done + [h], n);
      ReachesCons(c, done, h, tail, s, left, cursor, n);
      more := [h] + tail;
    }
  }

  /** Reading panics at line `n` if and only if the lines print admissible hunks, an accepted header and
      numbered records within the limits that leave the hunk unfinished, and go on, at line `n`, with a
      line whose first character takes several bytes. */
  lemma {:induction false} PanicsExactly(kind: ChangeKind, l: Limits, lines: seq<string>, cursor: nat, n: nat)
    ensures ReadAll(ReaderFor(kind, l), lines, cursor, []) == Failure(SlicePanic(n)) <==>
      exists s :: BreaksAt(ReaderFor(kind, l), s) && lines == s.Render() && n == LineNumber(cursor + s.Offset())
  {
    ReaderIsProper(kind, l);
    var c := ReaderFor(kind, l);
    if ReadAll(c, lines, cursor, []) == Failure(SlicePanic(n)) {
      var more, s := PanicIsBroken(c, lines, cursor, [], n);
      assert [] + more == more && lines == s.Render();
    }
    if s :| BreaksAt(c, s) && lines == s.Render() && n == LineNumber(cursor + s.Offset()) {
      BrokenPanics(c, s, cursor, n);
    }
  }

  /** What a caller can check: lines that start with ASCII characters never make the reader panic. */
  lemma {:induction false} AsciiStartsNeverPanic(kind: ChangeKind, l: Limits, lines: seq<string>, cursor: nat, n: nat)
    requires forall line :: line in lines ==> !NonAscii(line)
    ensures ReadAll(ReaderFor(kind, l), lines, cursor, []) != Failure(SlicePanic(n))
  {
    PanicsExactly(kind, l, lines, cursor, n);
    forall s: Broken | lines == s.Render() ensures !NonAscii(s.line) {
      assert lines[s.Offset()] == s.line;
      assert s.line in lines;
    }
  }

  /** A panic happens: a hunk header, and a line that starts with an accented letter. */
  lemma {:induction false} AccentedLinePanics(kind: ChangeKind, l: Limits)
    requires l.maxHunks >= 1 && l.maxLinesPerHunk >= 1
    ensures var header := HunkHeader(HunkRange(1, 1), HunkRange(1, 1));
      ReadAll(ReaderFor(kind, l), [RenderHeader(header, ""), "\U{E9}tude"], 0, []) == Failure(SlicePanic(2))
  {
    var header := HunkHeader(HunkRange(1, 1), HunkRange(1, 1));
    var s := Broken([], RenderHeader(header, ""), header, [], "\U{E9}tude", []);
    HeaderRoundTrip(header, "", 1, l);
    ReaderIsProper(kind, l);
    BrokenPanics(ReaderFor(kind, l), s, 0, 2);
    assert s.Render() == [RenderHeader(header, ""), "\U{E9}tude"];
  }
}
