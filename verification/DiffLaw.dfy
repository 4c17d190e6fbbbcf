/** What the diff reader accepts and why it refuses, told from the characters of the lines
    (crates/revoot-core/src/diff.rs, lines 335-405, 483-681). */
module DiffLaws {
  import opened Wrappers
  import opened Words
  import opened ChangedPaths
  import opened Texts
  import opened DiffHeaders
  import opened DiffHunks
  import opened DiffParsers
  import TextLaws

  // ----- one line of a hunk

  predicate Sign(c: char) {
    c == ' ' || c == '-' || c == '+'
  }

  /** New files only have added lines, deleted files only removed ones. */
  predicate Belongs(kind: ChangeKind, sign: char) {
    match kind
    case Added => sign == '+'
    case Deleted => sign == '-'
    case _ => true
  }

  /** The next record of a hunk: a removed line has the next number of the old file, an added one that of the new
      file, and a kept one both. */
  ghost predicate Stated(r: Record, text: string, h: HunkHeader, done: seq<Record>) {
    && !r.noNewline && |text| > 0 && text[1..] == r.content
    && match r.position
       case Deletion(o) => text[0] == '-' && o == h.oldRange.start + OldCount(done)
       case Addition(n) => text[0] == '+' && n == h.newRange.start + NewCount(done)
       case Context(o, n) => text[0] == ' ' && o == h.oldRange.start + OldCount(done) && n == h.newRange.start + NewCount(done)
  }

  /** What each outcome says of a line behind the records `done`. */
  ghost predicate ConsumedRightly(kind: ChangeKind, h: HunkHeader, done: seq<Record>, text: string, line: nat, r: Result<Record, DiffError>) {
    var oldFull, newFull := OldCount(done) >= h.oldRange.count, NewCount(done) >= h.newRange.count;
    var signed := |text| > 0 && Sign(text[0]);
    match r
    case Success(record) =>
      && signed && Belongs(kind, text[0]) && Stated(record, text, h, done)
      && (text[0] != '+' ==> !oldFull) && (text[0] != '-' ==> !newFull)
    case Failure(UnexpectedHunkLine(n)) => n == line && (|text| == 0 || (text[0] <= '\U{7F}' && !Sign(text[0])))
    case Failure(SlicePanic(n)) => n == line && |text| > 0 && text[0] > '\U{7F}'
    case Failure(FileChangeLineMismatch(n)) => n == line && signed && !Belongs(kind, text[0])
    case Failure(HunkCountExceeded(n, side)) =>
      n == line && signed && Belongs(kind, text[0])
      && (if side.Old? then text[0] != '+' && oldFull else text[0] != '-' && newFull && (text[0] == ' ' ==> !oldFull))
    case _ => false
  }

  lemma {:induction false} LinesAreConsumedRightly(kind: ChangeKind, a: Accounting, h: HunkHeader, done: seq<Record>, text: string, line: nat)
    requires Tracks(a, h, done)
    ensures ConsumedRightly(kind, h, done, text, line, Consume(kind, a, text, line).1)
  {
  }

  // ----- where reading a hunk stops

  /** The hunk ends before its ranges are filled. */
  ghost predicate Short(h: HunkHeader, headerLine: nat, out: seq<Record>, e: DiffError) {
    && e.HunkCountMismatch? && e.line == headerLine
    && e.expectedOld == h.oldRange.count && e.observedOld == OldCount(out)
    && e.expectedNew == h.newRange.count && e.observedNew == NewCount(out)
  }

  /** Reading stops with `e` behind the records `out`, at line `n`, in front of the lines `left`. */
  ghost predicate Stops(c: Reader, h: HunkHeader, headerLine: nat, out: seq<Record>, left: seq<string>, n: nat, e: DiffError) {
    if OldCount(out) == h.oldRange.count && NewCount(out) == h.newRange.count then MarkerFirst(left) && e == DuplicateNoNewlineMarker(n)
    else if |left| == 0 then Short(h, headerLine, out, e)
    else if c.foreign(left[0], n).Some? then e == c.foreign(left[0], n).value
    else if IsHunkHeader(left[0]) then Short(h, headerLine, out, e)
    else if left[0] == "\\ No newline at end of file" then
      e == if out == [] then NoNewlineMarkerWithoutContent(n) else DuplicateNoNewlineMarker(n)
    else
      || ConsumedRightly(c.kind, h, out, left[0], n, Failure(e))
      || (e == TooManyLinesInHunk(headerLine) && |out| + 1 > c.l.maxLinesPerHunk
          && exists r :: ConsumedRightly(c.kind, h, out, left[0], n, Success(r)))
  }

  lemma {:induction false} StopsHere(c: Reader, rest: seq<string>, cursor: nat, a: Accounting, h: HunkHeader, done: seq<Record>)
    requires Tracks(a, h, done) && Read(c, rest, cursor, a, done).Failure? && !PassesLine(c, rest, cursor, a, done)
    ensures Stops(c, h, a.headerLine, done, rest, LineNumber(cursor), Read(c, rest, cursor, a, done).error)
  {
    if rest != [] {
      LinesAreConsumedRightly(c.kind, a, h, done, rest[0], LineNumber(cursor));
    }
  }

  /** The lines `rest` print the records `more` behind `done`, and there reading stops in front of `left`. */
  ghost predicate StopsBehind(c: Reader, h: HunkHeader, headerLine: nat, done: seq<Record>, more: seq<Record>, rest: seq<string>,
                              left: seq<string>, cursor: nat, e: DiffError) {
    && rest == RenderBody(more) + left
    && Stops(c, h, headerLine, done + more, left, LineNumber(cursor + |RenderBody(more)|), e)
  }

  lemma StopsCons(c: Reader, h: HunkHeader, headerLine: nat, done: seq<Record>, w: Record, tail: seq<Record>, rest: seq<string>,
                  behind: seq<string>, left: seq<string>, cursor: nat, e: DiffError)
    requires StopsBehind(c, h, headerLine, done + [w], tail, behind, left, cursor + |RenderRecord(w)|, e)
    requires rest == RenderRecord(w) + behind
    ensures StopsBehind(c, h, headerLine, done, [w] + tail, rest, left, cursor, e)
  {
    BodyCons(w, tail);
    assert rest == RenderRecord(w) + (RenderBody(tail) + left);
    assert done + ([w] + tail) == (done + [w]) + tail;
  }

  /** A hunk that cannot be read prints some records, and then stops. */
  lemma {:induction false} ReadStops(c: Reader, rest: seq<string>, cursor: nat, a: Accounting, h: HunkHeader, done: seq<Record>, e: DiffError)
    returns (more: seq<Record>, left: seq<string>)
    requires Tracks(a, h, done) && Read(c, rest, cursor, a, done) == Failure(e)
    ensures StopsBehind(c, h, a.headerLine, done, more, rest, left, cursor, e)
    decreases |rest|
  {
    if PassesLine(c, rest, cursor, a, done) {
      var b, w := ReadOneRecord(c, rest, cursor, a, h, done);
      var k := |RenderRecord(w)|;
      var tail;
      tail, left := ReadStops(c, rest[k..], cursor + k, b, h, done + [w], e);
      StopsCons(c, h, a.headerLine, done, w, tail, rest, rest[k..], left, cursor, e);
      more := [w] + tail;
    } else {
      more, left := [], rest;
      assert done + more == done;
      StopsHere(c, rest, cursor, a, h, done);
    }
  }

  // ----- where reading a diff stops

  /** Behind the hunks `done`, the first of the lines `left`, which is line `n`, opens no hunk, or one that cannot be
      read to its end, or one that is too much. */
  ghost predicate DiffStops(c: Reader, done: seq<Hunk>, left: seq<string>, cursor: nat, e: DiffError) {
    var n := LineNumber(cursor);
    if |left| == 0 then done == [] && e == NoHunks
    else if c.foreign(left[0], n).Some? then e == c.foreign(left[0], n).value
    else if !IsHunkHeader(left[0]) then e == UnexpectedTrailingContent(n)
    else if |done| >= c.l.maxHunks then e == TooManyHunks
    else
      match c.header(left[0], n)
      case Failure(f) => e == f
      case Success(h) => HunkRefused(c, done, h, n, left[1..], cursor + 1, e)
  }

  ghost predicate HunkRefused(c: Reader, done: seq<Hunk>, h: HunkHeader, headerLine: nat, lines: seq<string>, cursor: nat, e: DiffError) {
    exists records, rest :: HunkStops(c, done, h, headerLine, lines, records, rest, cursor, e)
  }

  /** The records behind a header stop short, or they fill the hunk and are too many for the file. */
  ghost predicate HunkStops(c: Reader, done: seq<Hunk>, h: HunkHeader, headerLine: nat, lines: seq<string>, records: seq<Record>,
                            rest: seq<string>, cursor: nat, e: DiffError) {
    && lines == RenderBody(records) + rest
    && (|| Stops(c, h, headerLine, records, rest, LineNumber(cursor + |RenderBody(records)|), e)
        || (Fills(c.kind, h, records) && TotalRecords(done) + |records| > c.l.maxCommentableLines && e == TooManyCommentableLines))
  }

  lemma {:induction false} UnreadHunkParts(c: Reader, rest: seq<string>, cursor: nat, h: HunkHeader, e: DiffError)
    requires rest != [] && c.header(rest[0], LineNumber(cursor)) == Success(h) && ReadHunk(c, rest, cursor) == Failure(e)
    ensures Read(c, rest[1..], cursor + 1, Begin(h, LineNumber(cursor)), []) == Failure(e)
  {
  }

  lemma StoppedHunk(c: Reader, done: seq<Hunk>, h: HunkHeader, n: nat, lines: seq<string>, more: seq<Record>, left: seq<string>,
                    cursor: nat, e: DiffError)
    requires StopsBehind(c, h, n, [], more, lines, left, cursor, e)
    ensures HunkRefused(c, done, h, n, lines, cursor, e)
  {
    assert [] + more == more;
    assert HunkStops(c, done, h, n, lines, more, left, cursor, e);
  }

  lemma {:induction false} UnreadHunkStops(c: Reader, rest: seq<string>, cursor: nat, done: seq<Hunk>, h: HunkHeader, e: DiffError)
    requires Proper(c) && rest != [] && c.header(rest[0], LineNumber(cursor)) == Success(h)
    requires ReadHunk(c, rest, cursor) == Failure(e)
    ensures HunkRefused(c, done, h, LineNumber(cursor), rest[1..], cursor + 1, e)
  {
    UnreadHunkParts(c, rest, cursor, h, e);
    BeginTracks(h, LineNumber(cursor), c.l);
    var more, left := ReadStops(c, rest[1..], cursor + 1, Begin(h, LineNumber(cursor)), h, [], e);
    StoppedHunk(c, done, h, LineNumber(cursor), rest[1..], more, left, cursor + 1, e);
  }

  lemma {:induction false} LargeHunkStops(c: Reader, rest: seq<string>, cursor: nat, done: seq<Hunk>, h: Hunk, left: seq<string>)
    requires Proper(c) && rest != [] && ReadHunk(c, rest, cursor) == Success((h, left))
    requires TotalRecords(done) + |h.records| > c.l.maxCommentableLines
    ensures HunkRefused(c, done, h.header, LineNumber(cursor), rest[1..], cursor + 1, TooManyCommentableLines)
  {
    HunkIsSound(c, rest, cursor, h, left);
    assert rest[1..] == RenderBody(h.records) + left;
    assert HunkStops(c, done, h.header, LineNumber(cursor), rest[1..], h.records, left, cursor + 1, TooManyCommentableLines);
  }

  /** Reading gets past the first hunk. */
  ghost predicate PassesHunk(c: Reader, rest: seq<string>, cursor: nat, done: seq<Hunk>) {
    && rest != [] && c.foreign(rest[0], LineNumber(cursor)).None? && IsHunkHeader(rest[0]) && |done| < c.l.maxHunks
    && ReadHunk(c, rest, cursor).Success?
    && TotalRecords(done) + |ReadHunk(c, rest, cursor).value.0.records| <= c.l.maxCommentableLines
  }

  lemma {:induction false} DiffStopsHere(c: Reader, rest: seq<string>, cursor: nat, done: seq<Hunk>, e: DiffError)
    requires Proper(c) && |done| <= c.l.maxHunks && ReadAll(c, rest, cursor, done) == Failure(e)
    requires !PassesHunk(c, rest, cursor, done)
    ensures DiffStops(c, done, rest, cursor, e)
  {
    if rest != [] && c.foreign(rest[0], LineNumber(cursor)).None? && IsHunkHeader(rest[0]) && |done| < c.l.maxHunks
       && c.header(rest[0], LineNumber(cursor)).Success? {
      var r := ReadHunk(c, rest, cursor);
      if r.Failure? {
        UnreadHunkStops(c, rest, cursor, done, c.header(rest[0], LineNumber(cursor)).value, e);
      } else {
        ReadHunkParts(c, rest, cursor, r.value.0, r.value.1);
        LargeHunkStops(c, rest, cursor, done, r.value.0, r.value.1);
      }
    }
  }

  /** The lines `rest` print the hunks `more` behind `done`, and there reading stops in front of `left`. */
  ghost predicate DiffStopsBehind(c: Reader, done: seq<Hunk>, more: seq<Hunk>, rest: seq<string>, left: seq<string>, cursor: nat, e: DiffError) {
    && rest == RenderAll(more) + left && (forall h :: h in more ==> WellFormed(c, h))
    && DiffStops(c, done + more, left, cursor + |RenderAll(more)|, e)
  }

  lemma DiffStopsCons(c: Reader, done: seq<Hunk>, h: Hunk, tail: seq<Hunk>, rest: seq<string>, behind: seq<string>, left: seq<string>,
                      cursor: nat, e: DiffError)
    requires DiffStopsBehind(c, done + [h], tail, behind, left, cursor + |RenderHunk(h)|, e)
    requires rest == RenderHunk(h) + behind && WellFormed(c, h)
    ensures DiffStopsBehind(c, done, [h] + tail, rest, left, cursor, e)
  {
    AllCons(h, tail);
    assert rest == RenderHunk(h) + (RenderAll(tail) + left);
    assert done + ([h] + tail) == (done + [h]) + tail;
  }

  lemma {:induction false} PassOneHunk(c: Reader, rest: seq<string>, cursor: nat, done: seq<Hunk>) returns (h: Hunk, behind: seq<string>)
    requires Proper(c) && PassesHunk(c, rest, cursor, done)
    ensures rest == RenderHunk(h) + behind && WellFormed(c, h) && |behind| < |rest|
    ensures ReadAll(c, rest, cursor, done) == ReadAll(c, behind, cursor + |RenderHunk(h)|, done + [h])
  {
    h, behind := ReadHunk(c, rest, cursor).value.0, ReadHunk(c, rest, cursor).value.1;
    HunkIsSound(c, rest, cursor, h, behind);
    ReadAllStep(c, rest, cursor, done, h, behind, cursor + |RenderHunk(h)|);
  }

  /** A diff that cannot be read prints some hunks, and then stops. */
  lemma {:induction false} ReadAllStops(c: Reader, rest: seq<string>, cursor: nat, done: seq<Hunk>, e: DiffError)
    returns (more: seq<Hunk>, left: seq<string>)
    requires Proper(c) && |done| <= c.l.maxHunks && ReadAll(c, rest, cursor, done) == Failure(e)
    ensures DiffStopsBehind(c, done, more, rest, left, cursor, e)
    decreases |rest|
  {
    if PassesHunk(c, rest, cursor, done) {
      var h, behind := PassOneHunk(c, rest, cursor, done);
      var tail;
      tail, left := ReadAllStops(c, behind, cursor + |RenderHunk(h)|, done + [h], e);
      DiffStopsCons(c, done, h, tail, rest, behind, left, cursor, e);
      more := [h] + tail;
    } else {
      more, left := [], rest;
      assert done + more == done;
      DiffStopsHere(c, rest, cursor, done, e);
    }
  }

  // ----- headers

  /** The text of a range; a count of one may be left out. */
  predicate RangeText(t: string, r: HunkRange) {
    t == Decimal(r.start) + "," + Decimal(r.count) || (r.count == 1 && t == Decimal(r.start))
  }

  /** The text of a header, with anything behind a space at its end. */
  ghost predicate HeaderText(s: string, h: HunkHeader) {
    exists o, n, section :: Headed(s, h, o, n, section)
  }

  predicate Headed(s: string, h: HunkHeader, o: string, n: string, section: string) {
    s == "@@ -" + ((o + " +" + n) + " @@" + section) && RangeText(o, h.oldRange) && RangeText(n, h.newRange) && Heading(section)
  }

  predicate Heading(section: string) {
    |section| > 0 ==> section[0] == ' '
  }

  /** What is made of two numbers that are written in a range. */
  function Judged(start: nat, count: nat, line: nat, side: Side): Result<HunkRange, DiffError> {
    if start > U32_MAX || count > U32_MAX || (start > 0 && count > 0 && start + count > U32_MAX + 1) then Failure(NumericOverflow(line))
    else if start == 0 && count > 0 then Failure(InvalidRangeStart(line, side))
    else Success(HunkRange(start, count))
  }

  lemma {:induction false} NumbersAreJudged(n: nat, line: nat)
    ensures ParseDecimal(Decimal(n), line) == if n > U32_MAX then Failure(NumericOverflow(line)) else Success(n)
  {
    DecimalRoundTrip(n);
  }

  lemma {:induction false} RangesAreJudged(start: nat, count: nat, line: nat, side: Side)
    ensures ParseRange(Decimal(start) + "," + Decimal(count), line, side) == Judged(start, count, line, side)
    ensures ParseRange(Decimal(start), line, side) == Judged(start, 1, line, side)
  {
    NumbersAreJudged(start, line);
    NumbersAreJudged(count, line);
    DigitsHaveNo(Decimal(start), ',');
    DigitsHaveNo(Decimal(count), ',');
    SplitOnceOf(Decimal(start), ",", Decimal(count));
    NotContained(Decimal(start), ",");
    NotContained(Decimal(count), ",");
  }

  /** Only such numbers make a range. */
  lemma {:induction false} RangesAreTold(t: string, line: nat, side: Side, r: HunkRange)
    ensures ParseRange(t, line, side) == Success(r) <==> RangeText(t, r) && r.Valid()
  {
    RangesAreJudged(r.start, r.count, line, side);
    if ParseRange(t, line, side) == Success(r) {
      var parts := SplitOnce(t, ",");
      if parts.Some? {
        ParsedIsPrinted(parts.value.0, line);
        ParsedIsPrinted(parts.value.1, line);
      } else {
        ParsedIsPrinted(t, line);
      }
    }
  }

  lemma {:induction false} TextHasNoSpace(t: string, start: nat, count: nat)
    requires t == Decimal(start) + "," + Decimal(count) || t == Decimal(start)
    ensures ' ' !in t
  {
    DigitsHaveNo(Decimal(start), ' ');
    DigitsHaveNo(Decimal(count), ' ');
  }

  /** What is made of a header whose two ranges are written without spaces. */
  lemma {:induction false} HeadersAreJudged(o: string, n: string, section: string, line: nat, l: Limits)
    requires ' ' !in o && ' ' !in n && Heading(section)
    ensures ParseHeader("@@ -" + ((o + " +" + n) + " @@" + section), line, l) ==
      var a, b := ParseRange(o, line, Old), ParseRange(n, line, New);
      if a.Failure? then Failure(a.error)
      else if b.Failure? then Failure(b.error)
      else if a.value.count + b.value.count == 0 then Failure(EmptyHunk(line))
      else if a.value.count > l.maxLinesPerHunk then Failure(DeclaredHunkTooLarge(line, Old))
      else if b.value.count > l.maxLinesPerHunk then Failure(DeclaredHunkTooLarge(line, New))
      else Success(HunkHeader(a.value, b.value))
  {
    var body := (o + " +" + n) + " @@" + section;
    StripPrefixOf("@@ -", body);
    assert ("@@ -" + body)[2] == "@@ -"[2];
    SplitAtMarker(o, n, section);
    SplitOnceOf(o, " +", n);
  }

  lemma {:induction false} AcceptedIsHeaded(s: string, line: nat, l: Limits, h: HunkHeader) returns (o: string, n: string, section: string)
    requires ParseHeader(s, line, l) == Success(h)
    ensures Headed(s, h, o, n, section)
  {
    var body := StripPrefix(s, "@@ -").value;
    var cut := SplitOnce(body, " @@").value;
    var ranges := SplitOnce(cut.0, " +").value;
    o, n, section := ranges.0, ranges.1, cut.1;
    RangesAreTold(o, line, Old, h.oldRange);
    RangesAreTold(n, line, New, h.newRange);
    assert s == "@@ -" + ((o + " +" + n) + " @@" + section);
  }

  lemma {:induction false} HeadedIsAccepted(s: string, line: nat, l: Limits, h: HunkHeader, o: string, n: string, section: string)
    requires Headed(s, h, o, n, section) && ValidHeader(h, l)
    ensures ParseHeader(s, line, l) == Success(h)
  {
    TextHasNoSpace(o, h.oldRange.start, h.oldRange.count);
    TextHasNoSpace(n, h.newRange.start, h.newRange.count);
    RangesAreTold(o, line, Old, h.oldRange);
    RangesAreTold(n, line, New, h.newRange);
    HeadersAreJudged(o, n, section, line, l);
  }

  /** A header is accepted exactly if it is the text of two ranges that are in order. */
  lemma {:induction false} HeadersAreTold(s: string, line: nat, l: Limits, h: HunkHeader)
    ensures ParseHeader(s, line, l) == Success(h) <==> HeaderText(s, h) && ValidHeader(h, l)
  {
    if ParseHeader(s, line, l) == Success(h) {
      var o, n, section := AcceptedIsHeaded(s, line, l, h);
    }
    if HeaderText(s, h) && ValidHeader(h, l) {
      var o, n, section :| Headed(s, h, o, n, section);
      HeadedIsAccepted(s, line, l, h, o, n, section);
    }
  }

  // ----- foreign formats

  ghost predicate Opens(s: string, start: string) {
    exists rest :: s == start + rest
  }

  ghost predicate Combined(s: string) {
    Opens(s, "diff --cc ") || Opens(s, "diff --combined ") || Opens(s, "@@@")
  }

  ghost predicate Binary(s: string) {
    s == "GIT binary patch" || (Opens(s, "Binary files ") && exists head :: s == head + " differ")
  }

  lemma {:induction false} StartsAreTold(s: string, start: string)
    ensures StartsWith(s, start) <==> Opens(s, start)
  {
    StartsWithIsPrefix(s, start);
    if start <= s {
      assert s == start + s[|start|..];
    }
  }

  lemma {:induction false} EndsAreTold(s: string, end: string)
    ensures StripSuffix(s, end).Some? <==> exists head :: s == head + end
  {
    if head :| s == head + end {
      StripSuffixOf(head, end);
    }
  }

  /** Combined and binary diffs are refused, and nothing else. */
  lemma {:induction false} ForeignIsTold(s: string, line: nat)
    ensures Unsupported(s, line) == if Combined(s) then Some(CombinedDiff(line)) else if Binary(s) then Some(BinaryDiff(line)) else None
    ensures IsHunkHeader(s) <==> Opens(s, "@@ ") || Opens(s, "@@-")
  {
    StartsAreTold(s, "diff --cc ");
    StartsAreTold(s, "diff --combined ");
    StartsAreTold(s, "@@@");
    StartsAreTold(s, "Binary files ");
    EndsAreTold(s, " differ");
    StartsAreTold(s, "@@ ");
    StartsAreTold(s, "@@-");
  }

  /** A hunk is well-formed exactly if its text is a header with ranges in order, its records fill them, and they are no
      more than the limit, unless that is the largest number there is. */
  lemma {:induction false} HunksAreTold(kind: ChangeKind, l: Limits, h: Hunk)
    ensures WellFormed(ReaderFor(kind, l), h) <==>
      && HeaderText(h.text, h.header) && ValidHeader(h.header, l) && Fills(kind, h.header, h.records)
      && (|h.records| <= l.maxLinesPerHunk || l.maxLinesPerHunk == 4_294_967_295)
  {
    HeadersAreTold(h.text, 1, l, h.header);
  }

  // ----- an example

  /** Behind its header, a kept line, a removed one at the end of the old file, and an added one. */
  const SMALL_DIFF := ["@@ -3,2 +14,2 @@ fn main() {", " kept", "-gone", "\\ No newline at end of file", "+come"]

  function SmallHunk(): Hunk {
    Hunk("@@ -3,2 +14,2 @@ fn main() {", HunkHeader(HunkRange(3, 2), HunkRange(14, 2)),
         [Record(Context(3, 14), "kept", false), Record(Deletion(4), "gone", true), Record(Addition(15), "come", false)])
  }

  lemma SmallDiffPrints()
    ensures RenderAll([SmallHunk()]) == SMALL_DIFF
  {
    var r := SmallHunk().records;
    assert r == [r[0]] + ([r[1]] + [r[2]]);
    BodyCons(r[2], []);
    BodyCons(r[1], [r[2]]);
    BodyCons(r[0], [r[1], r[2]]);
    AllCons(SmallHunk(), []);
    assert [r[2]] + [] == [r[2]] && [SmallHunk()] + [] == [SmallHunk()];
    PrintedLines(r[0], r[1], r[2]);
  }

  lemma PrintedLines(kept: Record, gone: Record, come: Record)
    requires kept == SmallHunk().records[0] && gone == SmallHunk().records[1] && come == SmallHunk().records[2]
    ensures RenderRecord(kept) == [" kept"] && RenderRecord(come) == ["+come"]
    ensures RenderRecord(gone) == ["-gone", "\\ No newline at end of file"]
  {
    assert RecordLine(kept) == " kept" && RecordLine(gone) == "-gone" && RecordLine(come) == "+come";
  }

  lemma SmallDiffIsWellFormed(c: Reader, h: Hunk)
    requires h == SmallHunk() && c.kind == Modified && c.header(h.text, 1) == Success(h.header)
    requires c.l.maxHunks >= 1 && c.l.maxLinesPerHunk >= 3 && c.l.maxCommentableLines >= 3
    ensures WellFormedDiff(c, [h])
  {
    SmallHunkIsFilled();
    assert [] + [h] == [h];
    TotalSnoc([], h);
  }

  /** The records and the line numbers of a small diff, in full. */
  lemma SmallDiffIsRead(l: Limits)
    requires l.maxHunks >= 1 && l.maxLinesPerHunk >= 3 && l.maxCommentableLines >= 3
    ensures ReadAll(ReaderFor(Modified, l), SMALL_DIFF, 0, []) == Success([SmallHunk()])
  {
    SmallHeaderIsRead(l);
    SmallDiffIsWellFormed(ReaderFor(Modified, l), SmallHunk());
    SmallDiffPrints();
    ReadExactly(Modified, l, SMALL_DIFF, 0, [SmallHunk()]);
  }

  lemma SmallHeaderIsRead(l: Limits)
    requires l.maxLinesPerHunk >= 2
    ensures ParseHeader(SmallHunk().text, 1, l) == Success(SmallHunk().header)
  {
    assert Decimal(14) == Decimal(1) + "4";
    HeadedIsAccepted(SmallHunk().text, 1, l, SmallHunk().header, "3,2", "14,2", " fn main() {");
  }

  lemma SmallHunkIsFilled()
    ensures Fills(Modified, SmallHunk().header, SmallHunk().records)
  {
    var h, r := SmallHunk().header, SmallHunk().records;
    assert [] + [r[0]] == [r[0]] && [r[0]] + [r[1]] == [r[0], r[1]] && [r[0], r[1]] + [r[2]] == r;
    WellNumberedSnoc(Modified, h, [], r[0]);
    WellNumberedSnoc(Modified, h, [r[0]], r[1]);
    WellNumberedSnoc(Modified, h, [r[0], r[1]], r[2]);
    CountsSnoc([], r[0]);
    CountsSnoc([r[0]], r[1]);
    CountsSnoc([r[0], r[1]], r[2]);
  }
}
