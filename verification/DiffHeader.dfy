/** Hunk headers of unified diffs (crates/revoot-core/src/diff.rs, lines 506-590). The format is the
    "Diff -u or -U Output Format" of the diff utility in POSIX.1-2017. */
module DiffHeaders {
  import opened Wrappers
  import opened Texts
  import opened Words

  datatype Side = Old | New

  datatype Limits = Limits(maxHunks: u32, maxLinesPerHunk: u32, maxCommentableLines: u32, contextRadius: u32) {
    predicate Valid() {
      maxHunks > 0 && maxLinesPerHunk > 0 && maxCommentableLines > 0 && contextRadius <= maxLinesPerHunk
    }
  }

  datatype DiffError =
    | InvalidLimits | InvalidChangedPath
    | CombinedDiff(line: nat) | BinaryDiff(line: nat) | NoHunks | TooManyHunks | MalformedHunkHeader(line: nat)
    | NumericOverflow(line: nat) | InvalidRangeStart(line: nat, side: Side) | EmptyHunk(line: nat)
    | DeclaredHunkTooLarge(line: nat, side: Side) | TooManyLinesInHunk(line: nat) | TooManyCommentableLines
    | UnexpectedHunkLine(line: nat) | NoNewlineMarkerWithoutContent(line: nat) | DuplicateNoNewlineMarker(line: nat)
    | HunkCountExceeded(line: nat, side: Side)
    | HunkCountMismatch(line: nat, expectedOld: u32, observedOld: u32, expectedNew: u32, observedNew: u32)
    | LineNumberOverflow(line: nat, side: Side) | FileChangeLineMismatch(line: nat) | UnexpectedTrailingContent(line: nat)
    | SlicePanic(line: nat)  // `&line[1..]` inside a multi-byte first character

  datatype HunkRange = HunkRange(start: u32, count: u32) {
    /** Numbers that fit: a nonempty range starts at line one or later and ends in range. */
    predicate Valid() {
      count > 0 ==> start > 0 && start + count - 1 <= U32_MAX
    }
  }

  datatype HunkHeader = HunkHeader(oldRange: HunkRange, newRange: HunkRange)

  // ----- decimal numbers

  predicate IsDigit(c: char) {
    '0' <= c <= '9'
  }

  function DigitValue(c: char): nat
    requires IsDigit(c)
  {
    c as int - '0' as int
  }

  predicate AllDigits(s: string) {
    forall i :: 0 <= i < |s| ==> IsDigit(s[i])
  }

  function DecimalValue(s: string): nat
    requires AllDigits(s)
  {
    if s == "" then 0 else 10 * DecimalValue(s[..|s| - 1]) + DigitValue(s[|s| - 1])
  }

  /** `parse_decimal`: canonical digits only. */
  function ParseDecimal(s: string, line: nat): Result<u32, DiffError> {
    if s == "" || !AllDigits(s) || (|s| > 1 && s[0] == '0') then Failure(MalformedHunkHeader(line))
    else if DecimalValue(s) > U32_MAX then Failure(NumericOverflow(line))
    else Success(DecimalValue(s))
  }

  function Decimal(n: nat): (s: string)
    ensures s != "" && AllDigits(s)
    ensures |s| > 1 ==> s[0] != '0'
    ensures n > 0 ==> s[0] != '0'
  {
    if n < 10 then [('0' as int + n) as char] else Decimal(n / 10) + [('0' as int + n % 10) as char]
  }

  lemma {:induction false} DecimalRoundTrip(n: nat)
    ensures DecimalValue(Decimal(n)) == n
  {
    if n < 10 {
      assert Decimal(n)[..0] == "";
    } else {
      DecimalRoundTrip(n / 10);
      assert Decimal(n)[..|Decimal(n)| - 1] == Decimal(n / 10);
    }
  }

  /** The parser accepts every 32-bit number as it is printed. */
  lemma {:induction false} ParsePrinted(n: u32, line: nat)
    ensures ParseDecimal(Decimal(n), line) == Success(n)
  {
    DecimalRoundTrip(n);
  }

  lemma {:induction false} CanonicalDigits(s: string)
    requires s != "" && AllDigits(s) && (|s| > 1 ==> s[0] != '0')
    ensures s == Decimal(DecimalValue(s))
    ensures |s| > 1 ==> DecimalValue(s) >= 10
  {
    var n := |s| - 1;
    if n == 0 {
      assert s[..0] == "";
    } else {
      CanonicalDigits(s[..n]);
      if n == 1 {
        assert s[..1] == [s[0]] && s[..1][..0] == "";
        assert DecimalValue(s[..1]) >= 1;
      }
      assert DecimalValue(s) / 10 == DecimalValue(s[..n]) && DecimalValue(s) % 10 == DigitValue(s[n]);
      assert s == s[..n] + [s[n]];
    }
  }

  /** The parser accepts nothing but printed numbers. */
  lemma ParsedIsPrinted(s: string, line: nat)
    requires ParseDecimal(s, line).Success?
    ensures s == Decimal(ParseDecimal(s, line).value)
  {
    CanonicalDigits(s);
  }

  // ----- ranges and headers

  /** `parse_hunk_range`. */
  function ParseRange(s: string, line: nat, side: Side): (r: Result<HunkRange, DiffError>)
    ensures r.Success? ==> r.value.Valid()
  {
    var parts := SplitOnce(s, ",");
    if parts.Some? && Contains(parts.value.1, ",") then Failure(MalformedHunkHeader(line))
    else
      var start := ParseDecimal(if parts.Some? then parts.value.0 else s, line);
      var count := if parts.Some? then ParseDecimal(parts.value.1, line) else Success(1);
      if start.Failure? then Failure(start.error)
      else if count.Failure? then Failure(count.error)
      else if count.value > 0 && start.value == 0 then Failure(InvalidRangeStart(line, side))
      else if count.value > 0 && start.value + count.value - 1 > U32_MAX then Failure(NumericOverflow(line))
      else Success(HunkRange(start.value, count.value))
  }

  /** Two ranges whose sizes are acceptable. */
  ghost predicate ValidHeader(h: HunkHeader, l: Limits) {
    && h.oldRange.Valid() && h.newRange.Valid()
    && (h.oldRange.count > 0 || h.newRange.count > 0)
    && h.oldRange.count <= l.maxLinesPerHunk && h.newRange.count <= l.maxLinesPerHunk
  }

  /** The ranges between `@@ -` and ` @@`. */
  function ParseRanges(s: string, line: nat, l: Limits): (r: Result<HunkHeader, DiffError>)
    ensures r.Success? ==> ValidHeader(r.value, l)
  {
    var ranges := SplitOnce(s, " +");
    if ranges.None? then Failure(MalformedHunkHeader(line))
    else
      var o := ParseRange(ranges.value.0, line, Old);
      if o.Failure? then Failure(o.error)
      else
        var n := ParseRange(ranges.value.1, line, New);
        if n.Failure? then Failure(n.error)
        else if o.value.count == 0 && n.value.count == 0 then Failure(EmptyHunk(line))
        else if o.value.count > l.maxLinesPerHunk then Failure(DeclaredHunkTooLarge(line, Old))
        else if n.value.count > l.maxLinesPerHunk then Failure(DeclaredHunkTooLarge(line, New))
        else Success(HunkHeader(o.value, n.value))
  }

  /** `parse_hunk_header`. */
  function ParseHeader(s: string, line: nat, l: Limits): (r: Result<HunkHeader, DiffError>)
    ensures r.Success? ==> ValidHeader(r.value, l) && "@@ -" <= s
  {
    if "@@@" <= s then Failure(CombinedDiff(line))
    else
      var body := StripPrefix(s, "@@ -");
      if body.None? then Failure(MalformedHunkHeader(line))
      else
        var cut := SplitOnce(body.value, " @@");
        if cut.None? then Failure(MalformedHunkHeader(line))
        else if cut.value.1 != "" && cut.value.1[0] != ' ' then Failure(MalformedHunkHeader(line))
        else ParseRanges(cut.value.0, line, l)
  }

  function RenderRange(r: HunkRange): string {
    if r.count == 1 then Decimal(r.start) else Decimal(r.start) + "," + Decimal(r.count)
  }

  /** A header as diff prints it; a count of one is left out. */
  function RenderHeader(h: HunkHeader, section: string): string {
    "@@ -" + ((RenderRange(h.oldRange) + " +" + RenderRange(h.newRange)) + " @@" + section)
  }

  predicate RangeChar(c: char) {
    IsDigit(c) || c == ','
  }

  lemma DigitsHaveNo(s: string, c: char)
    requires AllDigits(s) && !IsDigit(c)
    ensures c !in s
  {
  }

  lemma RangeHasNo(r: HunkRange, c: char)
    requires !RangeChar(c)
    ensures c !in RenderRange(r)
  {
    DigitsHaveNo(Decimal(r.start), c);
    DigitsHaveNo(Decimal(r.count), c);
  }

  lemma RangeRoundTrip(r: HunkRange, line: nat, side: Side)
    requires r.Valid()
    ensures ParseRange(RenderRange(r), line, side) == Success(r)
  {
    ParsePrinted(r.start, line);
    ParsePrinted(r.count, line);
    DigitsHaveNo(Decimal(r.start), ',');
    DigitsHaveNo(Decimal(r.count), ',');
    if r.count == 1 {
      NotContained(Decimal(r.start), ",");
    } else {
      SplitOnceOf(Decimal(r.start), ",", Decimal(r.count));
      NotContained(Decimal(r.count), ",");
    }
  }

  lemma {:induction false} SplitAtMarker(a: string, b: string, section: string)
    requires ' ' !in a && ' ' !in b
    ensures SplitOnce((a + " +" + b) + " @@" + section, " @@") == Some((a + " +" + b, section))
  {
    var s := (a + " +" + b) + " @@" + section;
    if a == "" {
      assert s == " +" + (b + " @@" + section);
      assert s[1] == '+' && " @@"[1] == '@';
      var t := "+" + b;
      assert s[1..] == t + " @@" + section;
      assert ' ' !in t;
      SplitOnceOf(t, " @@", section);
      assert [s[0]] + t == "" + " +" + b;
    } else {
      assert s[0] == a[0] && a[0] in a;
      assert s[1..] == (a[1..] + " +" + b) + " @@" + section;
      SplitAtMarker(a[1..], b, section);
      assert [a[0]] + (a[1..] + " +" + b) == a + " +" + b;
    }
  }

  lemma RangesRoundTrip(h: HunkHeader, line: nat, l: Limits)
    requires ValidHeader(h, l)
    ensures ParseRanges(RenderRange(h.oldRange) + " +" + RenderRange(h.newRange), line, l) == Success(h)
  {
    RangeHasNo(h.oldRange, ' ');
    SplitOnceOf(RenderRange(h.oldRange), " +", RenderRange(h.newRange));
    RangeRoundTrip(h.oldRange, line, Old);
    RangeRoundTrip(h.newRange, line, New);
  }

  /** Printed headers parse back, whatever section heading follows them. */
  lemma HeaderRoundTrip(h: HunkHeader, section: string, line: nat, l: Limits)
    requires ValidHeader(h, l)
    requires section == "" || section[0] == ' '
    ensures ParseHeader(RenderHeader(h, section), line, l) == Success(h)
  {
    var a, b := RenderRange(h.oldRange), RenderRange(h.newRange);
    RangeHasNo(h.oldRange, ' ');
    RangeHasNo(h.newRange, ' ');
    StripPrefixOf("@@ -", (a + " +" + b) + " @@" + section);
    assert RenderHeader(h, section)[2] == "@@ -"[2];
    SplitAtMarker(a, b, section);
    RangesRoundTrip(h, line, l);
  }
}
