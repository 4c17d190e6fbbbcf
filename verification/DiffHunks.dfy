/** Hunk bodies of unified diffs: line accounting, what the reader accepts, and that this is
    exactly what a diff writer can print (crates/revoot-core/src/diff.rs, lines 364-439 and 592-779). */
module DiffHunks {
  import opened Wrappers
  import opened Words
  import opened ChangedPaths
  import opened DiffHeaders
  import opened Texts

  const NO_NEWLINE_MARKER := "\\ No newline at end of file"

  /** The `u32` line number of a cursor. */
  function LineNumber(cursor: nat): u32 {
    if cursor < U32_MAX then cursor + 1 else U32_MAX
  }

  // ----- accounting for one hunk

  datatype Record = Record(position: Position, content: string, noNewline: bool)

  datatype Accounting = Accounting(
    header: HunkHeader, headerLine: nat, oldSeen: u32, newSeen: u32, oldLine: u32, newLine: u32)
  {
    predicate Complete() {
      oldSeen == header.oldRange.count && newSeen == header.newRange.count
    }

    function Mismatch(): DiffError {
      HunkCountMismatch(headerLine, header.oldRange.count, oldSeen, header.newRange.count, newSeen)
    }

    /** `consume_old`: the line number moves on only while old lines remain. */
    function AdvanceOld(line: nat): (Accounting, Option<DiffError>)
      requires oldSeen < header.oldRange.count
    {
      var next := this.(oldSeen := oldSeen + 1);
      if next.oldSeen >= header.oldRange.count then (next, None)
      else if oldLine == U32_MAX then (next, Some(LineNumberOverflow(line, Old)))
      else (next.(oldLine := oldLine + 1), None)
    }

    /** `consume_new`. */
    function AdvanceNew(line: nat): (Accounting, Option<DiffError>)
      requires newSeen < header.newRange.count
    {
      var next := this.(newSeen := newSeen + 1);
      if next.newSeen >= header.newRange.count then (next, None)
      else if newLine == U32_MAX then (next, Some(LineNumberOverflow(line, New)))
      else (next.(newLine := newLine + 1), None)
    }
  }

  function Begin(header: HunkHeader, headerLine: nat): Accounting {
    Accounting(header, headerLine, 0, 0, header.oldRange.start, header.newRange.start)
  }

  function ConsumeContext(a: Accounting, content: string, line: nat): (Accounting, Result<Record, DiffError>) {
    if a.oldSeen >= a.header.oldRange.count then (a, Failure(HunkCountExceeded(line, Old)))
    else if a.newSeen >= a.header.newRange.count then (a, Failure(HunkCountExceeded(line, New)))
    else if a.oldLine == 0 || a.newLine == 0 then
      (a, Failure(InvalidRangeStart(line, if a.oldLine == 0 then Old else New)))
    else
      var (b, e) := a.AdvanceOld(line);
      if e.Some? then (b, Failure(e.value))
      else
        var (c, f) := b.AdvanceNew(line);
        if f.Some? then (c, Failure(f.value))
        else (c, Success(Record(Context(a.oldLine, a.newLine), content, false)))
  }

  function ConsumeDeletion(a: Accounting, content: string, line: nat): (Accounting, Result<Record, DiffError>) {
    if a.oldSeen >= a.header.oldRange.count then (a, Failure(HunkCountExceeded(line, Old)))
    else if a.oldLine == 0 then (a, Failure(InvalidRangeStart(line, Old)))
    else
      var (b, e) := a.AdvanceOld(line);
      if e.Some? then (b, Failure(e.value)) else (b, Success(Record(Deletion(a.oldLine), content, false)))
  }

  function ConsumeAddition(a: Accounting, content: string, line: nat): (Accounting, Result<Record, DiffError>) {
    if a.newSeen >= a.header.newRange.count then (a, Failure(HunkCountExceeded(line, New)))
    else if a.newLine == 0 then (a, Failure(InvalidRangeStart(line, New)))
    else
      var (b, e) := a.AdvanceNew(line);
      if e.Some? then (b, Failure(e.value)) else (b, Success(Record(Addition(a.newLine), content, false)))
  }

  /** `validate_line_kind` by the first character of a line. */
  predicate Suitable(kind: ChangeKind, prefix: char) {
    (kind.Added? ==> prefix == '+') && (kind.Deleted? ==> prefix == '-')
  }

  /** `consume`: the accounting afterwards, and the record or the error. */
  function Consume(kind: ChangeKind, a: Accounting, text: string, line: nat): (Accounting, Result<Record, DiffError>) {
    if text == "" then (a, Failure(UnexpectedHunkLine(line)))
    else if text[0] as int >= 0x80 then (a, Failure(SlicePanic(line)))
    else if text[0] !in " -+" then (a, Failure(UnexpectedHunkLine(line)))
    else if !Suitable(kind, text[0]) then (a, Failure(FileChangeLineMismatch(line)))
    else if text[0] == ' ' then ConsumeContext(a, text[1..], line)
    else if text[0] == '-' then ConsumeDeletion(a, text[1..], line)
    else ConsumeAddition(a, text[1..], line)
  }

  // ----- reading one hunk and all hunks

  predicate IsHunkHeader(text: string) {
    StartsWith(text, "@@ ") || StartsWith(text, "@@-")
  }

  function Unsupported(text: string, line: nat): Option<DiffError> {
    if StartsWith(text, "diff --cc ") || StartsWith(text, "diff --combined ") || StartsWith(text, "@@@") then Some(CombinedDiff(line))
    else if text == "GIT binary patch" || (StartsWith(text, "Binary files ") && StripSuffix(text, " differ").Some?) then Some(BinaryDiff(line))
    else None
  }

  /** What the reader of a file is given: the change of the file, the limits, how lines of foreign
      formats are refused and how headers are read. */
  datatype Reader = Reader(
    kind: ChangeKind, l: Limits, foreign: (string, nat) -> Option<DiffError>, header: (string, nat) -> Result<HunkHeader, DiffError>)

  function ReaderFor(kind: ChangeKind, l: Limits): Reader {
    Reader(kind, l, Unsupported, (text: string, line: nat) => ParseHeader(text, line, l))
  }

  predicate TooManyLines(n: nat, l: Limits) {
    l.maxLinesPerHunk < U32_MAX && n > l.maxLinesPerHunk
  }

  predicate MarkerFirst(rest: seq<string>) {
    rest != [] && rest[0] == NO_NEWLINE_MARKER
  }

  function Flagged(records: seq<Record>): (r: seq<Record>)
    requires records != []
  {
    var last := |records| - 1;
    records[..last] + [records[last].(noNewline := true)]
  }

  /** Reading the lines `rest` behind the records `done` and their markers: the records of the hunk
      and the lines left over. The cursor only numbers the lines. */
  function Read(c: Reader, rest: seq<string>, cursor: nat, a: Accounting, done: seq<Record>)
    : (r: Result<(seq<Record>, seq<string>), DiffError>)
    ensures r.Success? ==> |r.value.1| <= |rest|
    decreases |rest|, 0
  {
    var n := LineNumber(cursor);
    if a.Complete() then if MarkerFirst(rest) then Failure(DuplicateNoNewlineMarker(n)) else Success((done, rest))
    else if rest == [] then Failure(a.Mismatch())
    else if c.foreign(rest[0], n).Some? then Failure(c.foreign(rest[0], n).value)
    else if IsHunkHeader(rest[0]) then Failure(a.Mismatch())
    else if rest[0] == NO_NEWLINE_MARKER then
      Failure(if done == [] then NoNewlineMarkerWithoutContent(n) else DuplicateNoNewlineMarker(n))
    else
      var (b, r) := Consume(c.kind, a, rest[0], n);
      if r.Failure? then Failure(r.error)
      else if TooManyLines(|done| + 1, c.l) then Failure(TooManyLinesInHunk(a.headerLine))
      else ReadMarker(c, rest[1..], cursor + 1, b, done + [r.value])
  }

  /** A marker behind a record belongs to that record. */
  function ReadMarker(c: Reader, rest: seq<string>, cursor: nat, a: Accounting, done: seq<Record>)
    : (r: Result<(seq<Record>, seq<string>), DiffError>)
    requires done != []
    ensures r.Success? ==> |r.value.1| <= |rest|
    decreases |rest|, 1
  {
    if MarkerFirst(rest) then Read(c, rest[1..], cursor + 1, a, Flagged(done)) else Read(c, rest, cursor, a, done)
  }

  datatype Hunk = Hunk(text: string, header: HunkHeader, records: seq<Record>)

  function TotalRecords(hunks: seq<Hunk>): nat {
    if hunks == [] then 0 else TotalRecords(hunks[..|hunks| - 1]) + |hunks[|hunks| - 1].records|
  }

  /** The hunk whose header is the first line, and the lines behind it. */
  function ReadHunk(c: Reader, rest: seq<string>, cursor: nat): (r: Result<(Hunk, seq<string>), DiffError>)
    requires rest != []
    ensures r.Success? ==> |r.value.1| < |rest|
  {
    var header := c.header(rest[0], LineNumber(cursor));
    if header.Failure? then Failure(header.error)
    else
      var body := Read(c, rest[1..], cursor + 1, Begin(header.value, LineNumber(cursor)), []);
      if body.Failure? then Failure(body.error) else Success((Hunk(rest[0], header.value, body.value.0), body.value.1))
  }

  /** `parse_hunks` behind the hunks `done`. */
  function ReadAll(c: Reader, rest: seq<string>, cursor: nat, done: seq<Hunk>): Result<seq<Hunk>, DiffError>
    decreases |rest|, 1
  {
    var n := LineNumber(cursor);
    if rest == [] then if done == [] then Failure(NoHunks) else Success(done)
    else if c.foreign(rest[0], n).Some? then Failure(c.foreign(rest[0], n).value)
    else if !IsHunkHeader(rest[0]) then Failure(UnexpectedTrailingContent(n))
    else if |done| == c.l.maxHunks then Failure(TooManyHunks)
    else ReadOn(c, rest, cursor, done)
  }

  /** The hunk that starts here, and the hunks behind it. */
  function ReadOn(c: Reader, rest: seq<string>, cursor: nat, done: seq<Hunk>): Result<seq<Hunk>, DiffError>
    requires rest != []
    decreases |rest|, 0
  {
    var r := ReadHunk(c, rest, cursor);
    if r.Failure? then Failure(r.error)
    else if TotalRecords(done) + |r.value.0.records| > c.l.maxCommentableLines then Failure(TooManyCommentableLines)
    else ReadAll(c, r.value.1, cursor + |rest| - |r.value.1|, done + [r.value.0])
  }

  /** Reading on is reading one hunk and then the rest. */
  lemma {:induction false} ReadOnStep(c: Reader, rest: seq<string>, cursor: nat, done: seq<Hunk>)
    requires rest != [] && ReadHunk(c, rest, cursor).Success?
    ensures var h, left := ReadHunk(c, rest, cursor).value.0, ReadHunk(c, rest, cursor).value.1;
      var fits := TotalRecords(done) + |h.records| <= c.l.maxCommentableLines;
      && (!fits ==> ReadOn(c, rest, cursor, done) == Failure(TooManyCommentableLines))
      && (fits ==> ReadOn(c, rest, cursor, done) == ReadAll(c, left, cursor + |rest| - |left|, done + [h]))
  {
  }

  // ----- what a diff writer prints

  function Prefix(p: Position): char {
    match p case Addition(_) => '+' case Deletion(_) => '-' case Context(_, _) => ' '
  }

  function RecordLine(r: Record): string {
    [Prefix(r.position)] + r.content
  }

  function RenderRecord(r: Record): seq<string> {
    if r.noNewline then [RecordLine(r), NO_NEWLINE_MARKER] else [RecordLine(r)]
  }

  function RenderBody(records: seq<Record>): seq<string> {
    if records == [] then [] else RenderRecord(records[0]) + RenderBody(records[1..])
  }

  function RenderHunk(h: Hunk): seq<string> {
    [h.text] + RenderBody(h.records)
  }

  function RenderAll(hunks: seq<Hunk>): seq<string> {
    if hunks == [] then [] else RenderHunk(hunks[0]) + RenderAll(hunks[1..])
  }

  function OldCount(records: seq<Record>): nat {
    if records == [] then 0
    else OldCount(records[..|records| - 1]) + if records[|records| - 1].position.OnOld() then 1 else 0
  }

  function NewCount(records: seq<Record>): nat {
    if records == [] then 0
    else NewCount(records[..|records| - 1]) + if records[|records| - 1].position.OnNew() then 1 else 0
  }

  /** A record behind `before` carries the next line number on each side it belongs to. */
  ghost predicate Numbered(h: HunkHeader, before: seq<Record>, p: Position) {
    && (p.OnOld() ==> p.oldLine == h.oldRange.start + OldCount(before))
    && (p.OnNew() ==> p.newLine == h.newRange.start + NewCount(before))
  }

  /** Every record is numbered and suits the change of the file. */
  ghost predicate WellNumbered(kind: ChangeKind, h: HunkHeader, records: seq<Record>) {
    records == [] ||
    (var n := |records| - 1;
     && WellNumbered(kind, h, records[..n])
     && Numbered(h, records[..n], records[n].position)
     && records[n].position.Suits(kind))
  }

  /** The records `out` fill the hunk of header `h`. */
  ghost predicate Fills(kind: ChangeKind, h: HunkHeader, out: seq<Record>) {
    && WellNumbered(kind, h, out)
    && OldCount(out) == h.oldRange.count && NewCount(out) == h.newRange.count
  }

  /** A hunk whose records fill its declared ranges exactly. */
  ghost predicate WellFormed(c: Reader, h: Hunk) {
    && c.header(h.text, 1) == Success(h.header)
    && Fills(c.kind, h.header, h.records)
    && !TooManyLines(|h.records|, c.l)
  }

  ghost predicate WellFormedDiff(c: Reader, hunks: seq<Hunk>) {
    && 0 < |hunks| <= c.l.maxHunks
    && TotalRecords(hunks) <= c.l.maxCommentableLines
    && forall h :: h in hunks ==> WellFormed(c, h)
  }

  // ----- accounting follows the records

  /** The line counter of one side after `seen` of its lines. */
  function Counter(range: HunkRange, seen: nat): nat {
    if seen < range.count then range.start + seen else if range.count == 0 then range.start else range.start + range.count - 1
  }

  ghost predicate Tracks(a: Accounting, h: HunkHeader, done: seq<Record>) {
    && a.header == h && h.oldRange.Valid() && h.newRange.Valid()
    && a.oldSeen == OldCount(done) <= h.oldRange.count && a.newSeen == NewCount(done) <= h.newRange.count
    && a.oldLine == Counter(h.oldRange, a.oldSeen) && a.newLine == Counter(h.newRange, a.newSeen)
  }

  lemma {:induction false} CountsSnoc(done: seq<Record>, r: Record)
    ensures OldCount(done + [r]) == OldCount(done) + if r.position.OnOld() then 1 else 0
    ensures NewCount(done + [r]) == NewCount(done) + if r.position.OnNew() then 1 else 0
  {
    assert (done + [r])[..|done|] == done;
  }

  lemma {:induction false} WellNumberedSnoc(kind: ChangeKind, h: HunkHeader, done: seq<Record>, r: Record)
    ensures WellNumbered(kind, h, done + [r]) <==>
      WellNumbered(kind, h, done) && Numbered(h, done, r.position) && r.position.Suits(kind)
  {
    assert (done + [r])[..|done|] == done;
  }

  /** Whether a side still has room for the record. */
  predicate Room(a: Accounting, p: Position) {
    && (p.OnOld() ==> a.oldSeen < a.header.oldRange.count)
    && (p.OnNew() ==> a.newSeen < a.header.newRange.count)
  }

  /** An accepted line is the next record of the hunk, and the accounting moves past it. */
  lemma ConsumedIsNext(kind: ChangeKind, a: Accounting, h: HunkHeader, done: seq<Record>, text: string, line: nat)
    requires Tracks(a, h, done)
    requires Consume(kind, a, text, line).1.Success?
    ensures var (b, r) := Consume(kind, a, text, line);
      && text == RecordLine(r.value) && !r.value.noNewline
      && Numbered(h, done, r.value.position) && r.value.position.Suits(kind)
      && Tracks(b, h, done + [r.value]) && b.headerLine == a.headerLine
  {
    CountsSnoc(done, Consume(kind, a, text, line).1.value);
    assert text == [text[0]] + text[1..];
  }

  /** The next record of a hunk is accepted. */
  lemma NextIsConsumed(kind: ChangeKind, a: Accounting, h: HunkHeader, done: seq<Record>, r: Record, line: nat)
    requires Tracks(a, h, done) && Room(a, r.position)
    requires Numbered(h, done, r.position) && r.position.Suits(kind)
    ensures Consume(kind, a, RecordLine(r), line).1 == Success(r.(noNewline := false))
  {
    assert RecordLine(r)[1..] == r.content;
  }

  /** Valid accounting never runs out of line numbers and never meets line zero: the two internal
      errors of `consume` cannot happen, and a rejected line leaves the accounting alone. */
  lemma InternalErrorsUnreachable(kind: ChangeKind, a: Accounting, h: HunkHeader, done: seq<Record>, text: string, line: nat)
    requires Tracks(a, h, done)
    requires Consume(kind, a, text, line).1.Failure?
    ensures var (b, r) := Consume(kind, a, text, line);
      && !r.error.LineNumberOverflow? && !r.error.InvalidRangeStart? && b == a
      && (r.error.HunkCountExceeded? <==>
            && text != "" && text[0] in " -+" && Suitable(kind, text[0])
            && !((text[0] in " -" ==> a.oldSeen < h.oldRange.count) && (text[0] in " +" ==> a.newSeen < h.newRange.count)))
  {
  }

  /** Content lines and markers. */
  predicate Plain(text: string) {
    text != "" && text[0] in " -+\\"
  }

  /** A line behind whose first byte no character ends. */
  predicate NonAscii(text: string) {
    text != "" && text[0] as int >= 0x80
  }

  /** Printed lines and lines with a multi-byte start are not refused as foreign; headers are read the
      same on every line, have acceptable ranges and start a hunk; neither check panics. */
  ghost predicate Proper(c: Reader) {
    && (forall text: string, n: nat :: Plain(text) || NonAscii(text) || "@@ -" <= text ==> c.foreign(text, n).None?)
    && (forall text: string, n: nat :: c.foreign(text, n).Some? ==> !c.foreign(text, n).value.SlicePanic?)
    && (forall text: string, n: nat :: c.header(text, n).Failure? ==> !c.header(text, n).error.SlicePanic?)
    && (forall text: string, a: nat, b: nat :: c.header(text, a).Success? ==>
          c.header(text, b) == c.header(text, a) && ValidHeader(c.header(text, a).value, c.l) && "@@ -" <= text)
  }

  // ----- accepted hunks are printed hunks

  /** The record a line stands for, with the marker behind it. */
  function WithMarker(r: Record, behind: seq<string>): Record {
    if MarkerFirst(behind) then r.(noNewline := true) else r
  }

  /** Reading a record and its marker in one step. */
  lemma MarkerStep(c: Reader, rest: seq<string>, cursor: nat, a: Accounting, done: seq<Record>, r: Record)
    requires rest != [] && !r.noNewline && rest[0] == RecordLine(r)
    ensures var w := WithMarker(r, rest[1..]);
      var k := |RenderRecord(w)|;
      && k <= |rest| && rest == RenderRecord(w) + rest[k..]
      && ReadMarker(c, rest[1..], cursor + 1, a, done + [r]) == Read(c, rest[k..], cursor + k, a, done + [w])
  {
    assert (done + [r])[..|done|] == done;
    if MarkerFirst(rest[1..]) {
      assert rest[1..][1..] == rest[2..];
    }
  }

  /** Reading gets past the first line. */
  predicate PassesLine(c: Reader, rest: seq<string>, cursor: nat, a: Accounting, done: seq<Record>) {
    && !a.Complete() && rest != []
    && c.foreign(rest[0], LineNumber(cursor)).None? && !IsHunkHeader(rest[0]) && rest[0] != NO_NEWLINE_MARKER
    && Consume(c.kind, a, rest[0], LineNumber(cursor)).1.Success?
    && !TooManyLines(|done| + 1, c.l)
  }

  lemma {:induction false} ReadPassesLine(c: Reader, rest: seq<string>, cursor: nat, a: Accounting, done: seq<Record>)
    requires Read(c, rest, cursor, a, done).Success? && !a.Complete()
    ensures PassesLine(c, rest, cursor, a, done)
  {
  }

  /** A line that is passed is a printed record, which the reader goes on behind. */
  lemma ReadOneRecord(c: Reader, rest: seq<string>, cursor: nat, a: Accounting, h: HunkHeader, done: seq<Record>)
    returns (b: Accounting, w: Record)
    requires Tracks(a, h, done) && PassesLine(c, rest, cursor, a, done)
    ensures var k := |RenderRecord(w)|;
      && k <= |rest| && rest == RenderRecord(w) + rest[k..]
      && Read(c, rest, cursor, a, done) == Read(c, rest[k..], cursor + k, b, done + [w])
    ensures Tracks(b, h, done + [w]) && Numbered(h, done, w.position) && w.position.Suits(c.kind) && b.headerLine == a.headerLine
  {
    var (next, r) := Consume(c.kind, a, rest[0], LineNumber(cursor));
    ConsumedIsNext(c.kind, a, h, done, rest[0], LineNumber(cursor));
    b, w := next, WithMarker(r.value, rest[1..]);
    MarkerStep(c, rest, cursor, b, done, r.value);
    TracksFlag(b, h, done, r.value, w);
  }

  /** The lines `rest` print the records `more` that complete the hunk behind `done`. */
  ghost predicate Prints(c: Reader, h: HunkHeader, done: seq<Record>, more: seq<Record>, rest: seq<string>,
                         out: seq<Record>, left: seq<string>) {
    && out == done + more && rest == RenderBody(more) + left && !MarkerFirst(left)
    && Fills(c.kind, h, out)
    && (more != [] ==> !TooManyLines(|out|, c.l))
  }

  lemma PrintsCons(c: Reader, h: HunkHeader, done: seq<Record>, w: Record, tail: seq<Record>, rest: seq<string>, behind: seq<string>,
                   out: seq<Record>, left: seq<string>)
    requires Prints(c, h, done + [w], tail, behind, out, left)
    requires rest == RenderRecord(w) + behind && !TooManyLines(|done| + 1, c.l)
    ensures Prints(c, h, done, [w] + tail, rest, out, left)
  {
    BodyCons(w, tail);
    assert rest == RenderRecord(w) + (RenderBody(tail) + left);
    assert out == done + ([w] + tail);
  }

  /** What is read is what was printed: reading stops behind the records that fill the hunk. */
  lemma {:induction false} ReadIsSound(c: Reader, rest: seq<string>, cursor: nat, a: Accounting, h: HunkHeader, done: seq<Record>)
    returns (more: seq<Record>)
    requires Tracks(a, h, done) && WellNumbered(c.kind, h, done)
    requires Read(c, rest, cursor, a, done).Success?
    ensures var (out, left) := Read(c, rest, cursor, a, done).value; Prints(c, h, done, more, rest, out, left)
    decreases |rest|
  {
    if a.Complete() {
      more := [];
    } else {
      ReadPassesLine(c, rest, cursor, a, done);
      var b, w := ReadOneRecord(c, rest, cursor, a, h, done);
      WellNumberedSnoc(c.kind, h, done, w);
      var k := |RenderRecord(w)|;
      var tail := ReadIsSound(c, rest[k..], cursor + k, b, h, done + [w]);
      var (out, left) := Read(c, rest, cursor, a, done).value;
      PrintsCons(c, h, done, w, tail, rest, rest[k..], out, left);
      more := [w] + tail;
    }
  }

  lemma TracksFlag(a: Accounting, h: HunkHeader, done: seq<Record>, r: Record, w: Record)
    requires Tracks(a, h, done + [r]) && r.position == w.position
    ensures Tracks(a, h, done + [w])
  {
    CountsSnoc(done, r);
    CountsSnoc(done, w);
  }

  lemma {:induction false} BodyCons(w: Record, tail: seq<Record>)
    ensures RenderBody([w] + tail) == RenderRecord(w) + RenderBody(tail)
  {
    assert ([w] + tail)[1..] == tail;
  }

  // ----- printed hunks are accepted

  lemma {:induction false} CountsMonotone(a: seq<Record>, b: seq<Record>)
    ensures OldCount(a) <= OldCount(a + b) && NewCount(a) <= NewCount(a + b)
  {
    if b == [] {
      assert a + b == a;
    } else {
      var n := |b| - 1;
      CountsMonotone(a, b[..n]);
      assert a + b == (a + b[..n]) + [b[n]];
      CountsSnoc(a + b[..n], b[n]);
    }
  }

  lemma {:induction false} WellNumberedPrefix(kind: ChangeKind, h: HunkHeader, a: seq<Record>, b: seq<Record>)
    requires WellNumbered(kind, h, a + b)
    ensures WellNumbered(kind, h, a)
  {
    if b == [] {
      assert a + b == a;
    } else {
      var n := |b| - 1;
      assert a + b == (a + b[..n]) + [b[n]];
      WellNumberedSnoc(kind, h, a + b[..n], b[n]);
      WellNumberedPrefix(kind, h, a, b[..n]);
    }
  }

  /** The records `out` start the hunk of header `h`. */
  ghost predicate Starts(kind: ChangeKind, h: HunkHeader, out: seq<Record>) {
    WellNumbered(kind, h, out) && OldCount(out) <= h.oldRange.count && NewCount(out) <= h.newRange.count
  }

  /** The first pending record is numbered next and still has room. */
  lemma PendingHead(kind: ChangeKind, a: Accounting, h: HunkHeader, done: seq<Record>, w: Record, tail: seq<Record>)
    requires Starts(kind, h, done + ([w] + tail)) && Tracks(a, h, done)
    ensures Numbered(h, done, w.position) && w.position.Suits(kind) && Room(a, w.position)
    ensures done + ([w] + tail) == (done + [w]) + tail
  {
    assert done + ([w] + tail) == (done + [w]) + tail;
    WellNumberedPrefix(kind, h, done + [w], tail);
    WellNumberedSnoc(kind, h, done, w);
    CountsMonotone(done + [w], tail);
    CountsSnoc(done, w);
  }

  /** Content lines are no markers and no headers. */
  lemma PlainLine(text: string)
    requires text != "" && text[0] in " -+"
    ensures Plain(text) && !IsHunkHeader(text) && text != NO_NEWLINE_MARKER
  {
    assert text[0] != '@' && text[0] != NO_NEWLINE_MARKER[0];
  }

  lemma MarkerIsPlain()
    ensures Plain(NO_NEWLINE_MARKER) && !IsHunkHeader(NO_NEWLINE_MARKER)
  {
    assert NO_NEWLINE_MARKER[0] == '\\';
  }

  /** One printed record of a hunk that others follow. */
  lemma {:induction false} PrintedStep(c: Reader, cursor: nat, a: Accounting, h: HunkHeader, done: seq<Record>, w: Record,
                                       tail: seq<Record>, left: seq<string>) returns (next: Accounting)
    requires Proper(c) && !MarkerFirst(left) && Tracks(a, h, done)
    requires Starts(c.kind, h, done + ([w] + tail)) && !TooManyLines(|done| + 1, c.l)
    ensures Tracks(next, h, done + [w]) && done + ([w] + tail) == (done + [w]) + tail
    ensures |RenderBody([w] + tail)| == |RenderRecord(w)| + |RenderBody(tail)|
    ensures Read(c, RenderBody([w] + tail) + left, cursor, a, done)
         == Read(c, RenderBody(tail) + left, cursor + |RenderRecord(w)|, next, done + [w])
  {
    PendingHead(c.kind, a, h, done, w, tail);
    NextIsConsumed(c.kind, a, h, done, w, LineNumber(cursor));
    ConsumedIsNext(c.kind, a, h, done, RecordLine(w), LineNumber(cursor));
    PrintedRecordIsRead(c, cursor, a, done, w, tail, left);
    next := Consume(c.kind, a, RecordLine(w), LineNumber(cursor)).0;
    TracksFlag(next, h, done, w.(noNewline := false), w);
    BodyCons(w, tail);
  }

  /** Printed records that start a hunk are read, and the accounting moves past them: at the line
      `end`, with the records `out`. */
  lemma {:induction false} PrintedIsPassed(c: Reader, cursor: nat, a: Accounting, h: HunkHeader, done: seq<Record>,
                                           more: seq<Record>, left: seq<string>, end: nat, out: seq<Record>)
    returns (b: Accounting)
    requires Proper(c) && !MarkerFirst(left)
    requires Tracks(a, h, done) && Starts(c.kind, h, out) && !TooManyLines(|out|, c.l)
    requires out == done + more && end == cursor + |RenderBody(more)|
    ensures Tracks(b, h, out) && Read(c, RenderBody(more) + left, cursor, a, done) == Read(c, left, end, b, out)
    decreases |more|
  {
    if more == [] {
      b := a;
      assert out == done && RenderBody(more) + left == left;
    } else {
      var w, tail := more[0], more[1..];
      assert more == [w] + tail;
      var next := PrintedStep(c, cursor, a, h, done, w, tail, left);
      b := PrintedIsPassed(c, cursor + |RenderRecord(w)|, next, h, done + [w], tail, left, end, out);
    }
  }

  /** Printed records that fill the hunk are all of it. */
  lemma {:induction false} PrintedIsRead(c: Reader, cursor: nat, a: Accounting, h: HunkHeader, done: seq<Record>,
                                         more: seq<Record>, left: seq<string>)
    requires Proper(c) && !MarkerFirst(left)
    requires Tracks(a, h, done) && Fills(c.kind, h, done + more) && !TooManyLines(|done + more|, c.l)
    ensures Read(c, RenderBody(more) + left, cursor, a, done) == Success((done + more, left))
  {
    var b := PrintedIsPassed(c, cursor, a, h, done, more, left, cursor + |RenderBody(more)|, done + more);
  }

  /** A line that can be consumed is read, whatever the marker behind it. */
  lemma {:induction false} ReadPlain(c: Reader, rest: seq<string>, cursor: nat, a: Accounting, done: seq<Record>)
    requires !a.Complete() && rest != [] && c.foreign(rest[0], LineNumber(cursor)).None?
    requires !IsHunkHeader(rest[0]) && rest[0] != NO_NEWLINE_MARKER && !TooManyLines(|done| + 1, c.l)
    requires Consume(c.kind, a, rest[0], LineNumber(cursor)).1.Success?
    ensures var (b, r) := Consume(c.kind, a, rest[0], LineNumber(cursor));
      Read(c, rest, cursor, a, done) == ReadMarker(c, rest[1..], cursor + 1, b, done + [r.value])
  {
  }

  lemma {:induction false} RecordMarker(w: Record, tail: seq<Record>, left: seq<string>)
    requires !MarkerFirst(left)
    ensures WithMarker(w.(noNewline := false), (RenderRecord(w) + (RenderBody(tail) + left))[1..]) == w
  {
    var behind := (RenderRecord(w) + (RenderBody(tail) + left))[1..];
    if w.noNewline {
      assert behind[0] == NO_NEWLINE_MARKER;
    } else {
      assert behind == RenderBody(tail) + left;
      if tail != [] {
        assert behind[0] == RecordLine(tail[0]);
        assert behind[0][0] != NO_NEWLINE_MARKER[0];
      }
    }
  }

  /** The first lines of a printed record. */
  lemma {:induction false} PrintedHead(w: Record, tail: seq<Record>, left: seq<string>)
    requires !MarkerFirst(left)
    ensures var rest := RenderBody([w] + tail) + left;
      && rest != [] && rest[0] == RecordLine(w) && Plain(rest[0]) && !IsHunkHeader(rest[0]) && rest[0] != NO_NEWLINE_MARKER
      && WithMarker(w.(noNewline := false), rest[1..]) == w
      && |RenderRecord(w)| <= |rest| && rest[|RenderRecord(w)|..] == RenderBody(tail) + left
  {
    BodyCons(w, tail);
    assert RenderBody([w] + tail) + left == RenderRecord(w) + (RenderBody(tail) + left);
    PlainLine(RecordLine(w));
    RecordMarker(w, tail, left);
  }

  lemma {:induction false} PrintedRecordIsRead(c: Reader, cursor: nat, a: Accounting, done: seq<Record>, w: Record, tail: seq<Record>, left: seq<string>)
    requires Proper(c) && !MarkerFirst(left)
    requires !a.Complete() && !TooManyLines(|done| + 1, c.l)
    requires var r := Consume(c.kind, a, RecordLine(w), LineNumber(cursor)).1; r.Success? && r.value == w.(noNewline := false)
    ensures var b := Consume(c.kind, a, RecordLine(w), LineNumber(cursor)).0;
      Read(c, RenderBody([w] + tail) + left, cursor, a, done)
      == Read(c, RenderBody(tail) + left, cursor + |RenderRecord(w)|, b, done + [w])
  {
    PrintedHead(w, tail, left);
    var rest := RenderBody([w] + tail) + left;
    ReadPlain(c, rest, cursor, a, done);
    var (b, r) := Consume(c.kind, a, RecordLine(w), LineNumber(cursor));
    MarkerStep(c, rest, cursor, b, done, r.value);
  }

  // ----- whole diffs

  /** Whether a header is accepted does not depend on its line number. */
  lemma HeaderLineFree(text: string, a: nat, b: nat, l: Limits)
    requires ParseHeader(text, a, l).Success?
    ensures ParseHeader(text, b, l) == ParseHeader(text, a, l)
  {
    var ranges := SplitOnce(SplitOnce(StripPrefix(text, "@@ -").value, " @@").value.0, " +").value;
    assert ParseRange(ranges.0, a, Old) == ParseRange(ranges.0, b, Old);
    assert ParseRange(ranges.1, a, New) == ParseRange(ranges.1, b, New);
  }

  /** Headers are split at ASCII characters only. */
  lemma HeadersNeverPanic(text: string, line: nat, l: Limits)
    ensures ParseHeader(text, line, l).Failure? ==> !ParseHeader(text, line, l).error.SlicePanic?
  {
  }

  lemma PrintedIsNotForeign(text: string, line: nat)
    requires Plain(text) || NonAscii(text) || "@@ -" <= text
    ensures Unsupported(text, line).None?
  {
    StartsWithIsPrefix(text, "@@@");
    if "@@ -" <= text {
      assert text[0] == "@@ -"[0] && text[2] == "@@ -"[2];
      assert text[2] != "@@@"[2];
    }
    assert text[0] != 'd' && text[0] != 'B' && text[0] != "GIT binary patch"[0];
  }

  lemma ReaderIsProper(kind: ChangeKind, l: Limits)
    ensures Proper(ReaderFor(kind, l))
  {
    forall text: string, n: nat | Plain(text) || NonAscii(text) || "@@ -" <= text ensures Unsupported(text, n).None? {
      PrintedIsNotForeign(text, n);
    }
    forall text: string, n: nat | ParseHeader(text, n, l).Failure? ensures !ParseHeader(text, n, l).error.SlicePanic? {
      HeadersNeverPanic(text, n, l);
    }
    forall text: string, a: nat, b: nat | ParseHeader(text, a, l).Success? ensures ParseHeader(text, b, l) == ParseHeader(text, a, l) {
      HeaderLineFree(text, a, b, l);
    }
  }

  /** A nonempty hunk has a record. */
  lemma FilledIsNonempty(kind: ChangeKind, h: HunkHeader, out: seq<Record>)
    requires Fills(kind, h, out) && (h.oldRange.count > 0 || h.newRange.count > 0)
    ensures out != []
  {
  }

  lemma BeginTracks(h: HunkHeader, line: nat, l: Limits)
    requires ValidHeader(h, l)
    ensures Tracks(Begin(h, line), h, [])
  {
  }

  lemma {:induction false} BodyIsSound(c: Reader, rest: seq<string>, cursor: nat, line: nat, h: HunkHeader, records: seq<Record>, left: seq<string>)
    requires ValidHeader(h, c.l)
    requires Read(c, rest, cursor, Begin(h, line), []) == Success((records, left))
    ensures Fills(c.kind, h, records) && !TooManyLines(|records|, c.l)
    ensures rest == RenderBody(records) + left && !MarkerFirst(left)
  {
    BeginTracks(h, line, c.l);
    var more := ReadIsSound(c, rest, cursor, Begin(h, line), h, []);
    assert records == [] + more == more;
    FilledIsNonempty(c.kind, h, records);
  }

  lemma {:induction false} ReadHunkParts(c: Reader, rest: seq<string>, cursor: nat, h: Hunk, left: seq<string>)
    requires rest != [] && ReadHunk(c, rest, cursor) == Success((h, left))
    ensures h.text == rest[0] && c.header(rest[0], LineNumber(cursor)) == Success(h.header)
    ensures Read(c, rest[1..], cursor + 1, Begin(h.header, LineNumber(cursor)), []) == Success((h.records, left))
  {
  }

  lemma HunkIsSound(c: Reader, rest: seq<string>, cursor: nat, h: Hunk, left: seq<string>)
    requires Proper(c) && rest != [] && ReadHunk(c, rest, cursor) == Success((h, left))
    ensures WellFormed(c, h) && rest == RenderHunk(h) + left && !MarkerFirst(left)
  {
    ReadHunkParts(c, rest, cursor, h, left);
    BodyIsSound(c, rest[1..], cursor + 1, LineNumber(cursor), h.header, h.records, left);
    assert rest == [h.text] + rest[1..];
  }

  lemma {:induction false} BodyIsComplete(c: Reader, cursor: nat, line: nat, h: HunkHeader, records: seq<Record>, left: seq<string>)
    requires Proper(c) && !MarkerFirst(left)
    requires ValidHeader(h, c.l) && Fills(c.kind, h, records) && !TooManyLines(|records|, c.l)
    ensures var r := Read(c, RenderBody(records) + left, cursor, Begin(h, line), []);
      r.Success? && r.value.0 == records && r.value.1 == left
  {
    BeginTracks(h, line, c.l);
    assert [] + records == records;
    PrintedIsRead(c, cursor, Begin(h, line), h, [], records, left);
  }

  lemma HunkIsComplete(c: Reader, h: Hunk, left: seq<string>, cursor: nat)
    requires Proper(c) && WellFormed(c, h) && !MarkerFirst(left)
    ensures ReadHunk(c, RenderHunk(h) + left, cursor) == Success((h, left))
  {
    var rest := RenderHunk(h) + left;
    assert rest[0] == h.text && rest[1..] == RenderBody(h.records) + left;
    BodyIsComplete(c, cursor + 1, LineNumber(cursor), h.header, h.records, left);
  }

  lemma HeaderLine(text: string)
    requires "@@ -" <= text
    ensures IsHunkHeader(text) && text != NO_NEWLINE_MARKER
  {
    StartsWithIsPrefix(text, "@@ ");
    assert text[0] == "@@ -"[0] && text[1] == "@@ -"[1] && text[2] == "@@ -"[2];
    assert "@@ " <= text;
    assert NO_NEWLINE_MARKER[0] != '@';
  }

  lemma {:induction false} TotalSnoc(done: seq<Hunk>, h: Hunk)
    ensures TotalRecords(done + [h]) == TotalRecords(done) + |h.records|
  {
    assert (done + [h])[..|done|] == done;
  }

  lemma {:induction false} TotalMonotone(a: seq<Hunk>, b: seq<Hunk>)
    ensures TotalRecords(a) <= TotalRecords(a + b)
  {
    if b == [] {
      assert a + b == a;
    } else {
      var n := |b| - 1;
      TotalMonotone(a, b[..n]);
      assert a + b == (a + b[..n]) + [b[n]];
      TotalSnoc(a + b[..n], b[n]);
    }
  }

  /** The lines start no marker, so the hunk before them is finished. */
  lemma {:induction false} NoMarkerFirst(c: Reader, more: seq<Hunk>)
    requires Proper(c)
    requires forall h :: h in more ==> WellFormed(c, h)
    ensures !MarkerFirst(RenderAll(more))
  {
    if more != [] {
      assert more[0] in more;
      HeaderLine(more[0].text);
    }
  }

  lemma {:induction false} AllCons(h: Hunk, tail: seq<Hunk>)
    ensures RenderAll([h] + tail) == RenderHunk(h) + RenderAll(tail)
  {
    assert ([h] + tail)[1..] == tail;
  }

  /** Hunks that may still be followed by others. */
  ghost predicate Partial(c: Reader, done: seq<Hunk>) {
    |done| <= c.l.maxHunks && TotalRecords(done) <= c.l.maxCommentableLines && forall h :: h in done ==> WellFormed(c, h)
  }

  lemma ReadOneHunk(c: Reader, rest: seq<string>, cursor: nat, done: seq<Hunk>) returns (h: Hunk, left: seq<string>)
    requires Proper(c) && Partial(c, done) && rest != []
    requires ReadAll(c, rest, cursor, done).Success?
    ensures rest == RenderHunk(h) + left && |left| < |rest| && Partial(c, done + [h])
    ensures ReadAll(c, rest, cursor, done) == ReadAll(c, left, cursor + |rest| - |left|, done + [h])
  {
    var r := ReadHunk(c, rest, cursor).value;
    h, left := r.0, r.1;
    HunkIsSound(c, rest, cursor, h, left);
    TotalSnoc(done, h);
  }

  ghost predicate PrintsAll(c: Reader, done: seq<Hunk>, more: seq<Hunk>, rest: seq<string>, out: seq<Hunk>) {
    out == done + more && rest == RenderAll(more) && WellFormedDiff(c, out)
  }

  lemma PrintsAllCons(c: Reader, done: seq<Hunk>, h: Hunk, tail: seq<Hunk>, rest: seq<string>, left: seq<string>, out: seq<Hunk>)
    requires PrintsAll(c, done + [h], tail, left, out) && rest == RenderHunk(h) + left
    ensures PrintsAll(c, done, [h] + tail, rest, out)
  {
    AllCons(h, tail);
    assert done + ([h] + tail) == (done + [h]) + tail;
  }

  lemma {:induction false} NothingLeft(c: Reader, cursor: nat, done: seq<Hunk>, out: seq<Hunk>)
    requires Partial(c, done) && ReadAll(c, [], cursor, done) == Success(out)
    ensures PrintsAll(c, done, [], [], out)
  {
    assert done + [] == done;
  }

  lemma {:induction false} AllIsSound(c: Reader, rest: seq<string>, cursor: nat, done: seq<Hunk>, out: seq<Hunk>) returns (more: seq<Hunk>)
    requires Proper(c) && Partial(c, done)
    requires ReadAll(c, rest, cursor, done) == Success(out)
    ensures PrintsAll(c, done, more, rest, out)
    decreases |rest|
  {
    if rest == [] {
      NothingLeft(c, cursor, done, out);
      more := [];
    } else {
      var h, left := ReadOneHunk(c, rest, cursor, done);
      var tail := AllIsSound(c, left, cursor + |rest| - |left|, done + [h], out);
      PrintsAllCons(c, done, h, tail, rest, left, out);
      more := [h] + tail;
    }
  }

  lemma {:induction false} PrintedHunkIsRead(c: Reader, cursor: nat, done: seq<Hunk>, h: Hunk, left: seq<string>, next: nat, known: seq<Hunk>)
    requires Proper(c) && Partial(c, known) && !MarkerFirst(left)
    requires known == done + [h] && next == cursor + |RenderHunk(h)|
    ensures ReadAll(c, RenderHunk(h) + left, cursor, done) == ReadAll(c, left, next, known)
  {
    assert h in known;
    HeaderLine(h.text);
    HunkIsComplete(c, h, left, cursor);
    TotalSnoc(done, h);
  }

  lemma PendingHunk(c: Reader, done: seq<Hunk>, h: Hunk, tail: seq<Hunk>)
    requires Partial(c, (done + [h]) + tail)
    ensures Partial(c, done + [h])
  {
    assert forall x :: x in done + [h] ==> x in (done + [h]) + tail;
    TotalMonotone(done + [h], tail);
  }

  lemma {:induction false} TailUnmarked(c: Reader, done: seq<Hunk>, tail: seq<Hunk>, left: seq<string>)
    requires Proper(c) && Partial(c, done + tail) && !MarkerFirst(left)
    ensures !MarkerFirst(RenderAll(tail) + left)
  {
    if tail == [] {
      assert RenderAll(tail) + left == left;
    } else {
      assert forall x :: x in tail ==> x in done + tail;
      NoMarkerFirst(c, tail);
    }
  }

  lemma {:induction false} PrintedHunkStep(c: Reader, h: Hunk, tail: seq<Hunk>, left: seq<string>, cursor: nat, done: seq<Hunk>,
                                           middle: seq<string>, next: nat, known: seq<Hunk>)
    requires Proper(c) && Partial(c, (done + [h]) + tail) && !MarkerFirst(left)
    requires middle == RenderAll(tail) + left && next == cursor + |RenderHunk(h)| && known == done + [h]
    ensures ReadAll(c, RenderAll([h] + tail) + left, cursor, done) == ReadAll(c, middle, next, known)
  {
    PendingHunk(c, done, h, tail);
    TailUnmarked(c, known, tail, left);
    AllCons(h, tail);
    assert RenderAll([h] + tail) + left == RenderHunk(h) + middle;
    PrintedHunkIsRead(c, cursor, done, h, middle, next, known);
  }

  /** Printed hunks are read, and the reader goes on behind them: at the line `end`, with the hunks `all`. */
  lemma {:induction false} AllArePassed(c: Reader, more: seq<Hunk>, left: seq<string>, cursor: nat, done: seq<Hunk>, end: nat, all: seq<Hunk>)
    requires Proper(c) && Partial(c, all) && !MarkerFirst(left)
    requires all == done + more && end == cursor + |RenderAll(more)|
    ensures ReadAll(c, RenderAll(more) + left, cursor, done) == ReadAll(c, left, end, all)
    decreases |more|
  {
    if more == [] {
      assert all == done && RenderAll(more) + left == left;
    } else {
      var h, tail := more[0], more[1..];
      assert more == [h] + tail && all == (done + [h]) + tail;
      var middle, next, known := RenderAll(tail) + left, cursor + |RenderHunk(h)|, done + [h];
      AllCons(h, tail);
      PrintedHunkStep(c, h, tail, left, cursor, done, middle, next, known);
      AllArePassed(c, tail, left, next, known, end, all);
    }
  }

  lemma {:induction false} AllIsComplete(c: Reader, more: seq<Hunk>, cursor: nat, done: seq<Hunk>)
    requires Proper(c) && WellFormedDiff(c, done + more)
    ensures ReadAll(c, RenderAll(more), cursor, done) == Success(done + more)
  {
    AllArePassed(c, more, [], cursor, done, cursor + |RenderAll(more)|, done + more);
    assert RenderAll(more) + [] == RenderAll(more);
  }

  /** The reader accepts exactly the printed diffs: lines are read as `hunks` if and only if they are
      the print of `hunks` and the hunks fill their declared ranges, are numbered consecutively, suit
      the change of the file and stay within the limits. */
  lemma {:induction false} ReadExactly(kind: ChangeKind, l: Limits, lines: seq<string>, cursor: nat, hunks: seq<Hunk>)
    ensures ReadAll(ReaderFor(kind, l), lines, cursor, []) == Success(hunks) <==>
      lines == RenderAll(hunks) && WellFormedDiff(ReaderFor(kind, l), hunks)
  {
    ReaderIsProper(kind, l);
    ProperReadExactly(ReaderFor(kind, l), lines, cursor, hunks);
  }

  lemma {:induction false} ProperReadExactly(c: Reader, lines: seq<string>, cursor: nat, hunks: seq<Hunk>)
    requires Proper(c)
    ensures ReadAll(c, lines, cursor, []) == Success(hunks) <==> lines == RenderAll(hunks) && WellFormedDiff(c, hunks)
  {
    assert [] + hunks == hunks;
    if WellFormedDiff(c, hunks) {
      AllIsComplete(c, hunks, cursor, []);
    }
    if ReadAll(c, lines, cursor, []).Success? {
      var more := AllIsSound(c, lines, cursor, [], ReadAll(c, lines, cursor, []).value);
      assert [] + more == more;
    }
  }

  /** No two well-formed diffs print alike. */
  lemma {:induction false} PrintsAreUnambiguous(kind: ChangeKind, l: Limits, a: seq<Hunk>, b: seq<Hunk>)
    requires WellFormedDiff(ReaderFor(kind, l), a) && WellFormedDiff(ReaderFor(kind, l), b)
    requires RenderAll(a) == RenderAll(b)
    ensures a == b
  {
    ReadExactly(kind, l, RenderAll(a), 0, a);
    ReadExactly(kind, l, RenderAll(b), 0, b);
  }

  /** The record behind `k` others carries the start of each of its sides plus the number of
      records of that side before it; hence the numbers of one side are consecutive. */
  lemma {:induction false} RecordNumbers(kind: ChangeKind, h: HunkHeader, records: seq<Record>, k: nat)
    requires WellNumbered(kind, h, records) && k < |records|
    ensures Numbered(h, records[..k], records[k].position) && records[k].position.Suits(kind)
  {
    var n := |records| - 1;
    if k < n {
      RecordNumbers(kind, h, records[..n], k);
      assert records[..n][..k] == records[..k];
    }
  }
}
