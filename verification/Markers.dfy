/** Markers attached to published comments (crates/revoot-core/src/publication.rs, lines 40-224). */
module Markers {
  import opened Wrappers
  import opened Digests
  import opened Texts

  const MARKER_PREFIX := "<!-- revoot:v1 "
  const MARKER_SUFFIX := " -->"
  const LINEAGE_MARKER_PREFIX := "<!-- revoot:lineage-v1 "

  datatype TargetKind = InlineKind | SummaryKind

  function KindText(kind: TargetKind): string {
    match kind
    case InlineKind => "inline"
    case SummaryKind => "summary"
  }

  function ParseKind(s: string): (r: Option<TargetKind>)
    ensures r.Some? ==> s == KindText(r.value)
    ensures r.None? ==> forall k :: s != KindText(k)
  {
    if s == "inline" then Some(InlineKind) else if s == "summary" then Some(SummaryKind) else None
  }

  /** `key=value` with the key removed. */
  function Field(piece: string, key: string): (r: Option<string>)
    ensures r.Some? ==> piece == key + r.value
  {
    StripPrefix(piece, key)
  }

  datatype PublicationMarker = PublicationMarker(scope: Digest, fingerprint: Digest, kind: TargetKind) {
    function Render(): string {
      MARKER_PREFIX + ("scope=" + scope + " " + ("fingerprint=" + fingerprint + " " + ("kind=" + KindText(kind)))) + MARKER_SUFFIX
    }
  }

  /** The text between a marker's prefix and its suffix. */
  function MarkerContent(s: string, prefix: string): (r: Option<string>)
    ensures r.Some? ==> s == prefix + (r.value + MARKER_SUFFIX)
  {
    var tail := StripPrefix(s, prefix);
    if tail.None? then None else StripSuffix(tail.value, MARKER_SUFFIX)
  }

  function ParseMarker(s: string): Option<PublicationMarker> {
    var content := MarkerContent(s, MARKER_PREFIX);
    if content.None? then None
    else
      var parts := Split(content.value, ' ');
      if |parts| != 3 then None
      else
        var scope, fingerprint, kind := Field(parts[0], "scope="), Field(parts[1], "fingerprint="), Field(parts[2], "kind=");
        if scope.None? || fingerprint.None? || kind.None? then None
        else if !IsDigest(scope.value) || !IsDigest(fingerprint.value) then None
        else
          var k := ParseKind(kind.value);
          if k.None? then None else Some(PublicationMarker(scope.value, fingerprint.value, k.value))
  }

  lemma MarkerContentOf(prefix: string, content: string)
    ensures MarkerContent(prefix + content + MARKER_SUFFIX, prefix) == Some(content)
  {
    assert prefix + content + MARKER_SUFFIX == prefix + (content + MARKER_SUFFIX);
    StripPrefixOf(prefix, content + MARKER_SUFFIX);
    StripSuffixOf(content, MARKER_SUFFIX);
  }

  lemma HexHasNo(s: string, c: char)
    requires IsLowerHex(s) && !IsHexDigit(c)
    ensures c !in s
  {
  }

  lemma {:induction false} SplitThree(a: string, b: string, c: string)
    requires ' ' !in a && ' ' !in b && ' ' !in c
    ensures Split(a + " " + (b + " " + c), ' ') == [a, b, c]
  {
    assert " " == [' '];
    SplitAtFirst(a, ' ', b + " " + c);
    SplitAtFirst(b, ' ', c);
    SplitWithout(c, ' ');
  }

  /** Parsing a rendered marker gives it back. */
  lemma ParseRendered(m: PublicationMarker)
    ensures ParseMarker(m.Render()) == Some(m)
  {
    var a, b, c := "scope=" + m.scope, "fingerprint=" + m.fingerprint, "kind=" + KindText(m.kind);
    var content := a + " " + (b + " " + c);
    assert m.Render() == MARKER_PREFIX + content + MARKER_SUFFIX;
    MarkerContentOf(MARKER_PREFIX, content);
    HexHasNo(m.scope, ' ');
    HexHasNo(m.fingerprint, ' ');
    SplitThree(a, b, c);
    StripPrefixOf("scope=", m.scope);
    StripPrefixOf("fingerprint=", m.fingerprint);
    StripPrefixOf("kind=", KindText(m.kind));
  }

  /** Only rendered markers parse. */
  lemma ParsedWasRendered(s: string)
    requires ParseMarker(s).Some?
    ensures s == ParseMarker(s).value.Render()
  {
    var content := MarkerContent(s, MARKER_PREFIX).value;
    var parts := Split(content, ' ');
    JoinSplit(content, ' ');
    var m := ParseMarker(s).value;
    var a, b, c := parts[0], parts[1], parts[2];
    assert parts == [a, b, c] && parts[1..] == [b, c] && parts[1..][1..] == [c];
    assert Join([c], ' ') == c;
    assert Join([b, c], ' ') == b + " " + c;
    assert content == a + " " + (b + " " + c);
    assert a == "scope=" + m.scope && b == "fingerprint=" + m.fingerprint && c == "kind=" + KindText(m.kind);
  }

  /** ASCII text without a line break. */
  ghost predicate Plain(s: string) {
    forall i :: 0 <= i < |s| ==> s[i] as int < 0x80 && s[i] != '\n'
  }

  lemma HexIsPlain(s: string)
    requires IsLowerHex(s)
    ensures Plain(s)
  {
    assert forall i :: 0 <= i < |s| ==> IsHexDigit(s[i]);
  }

  /** A marker is one line of 178 or 179 bytes, all of them ASCII. */
  lemma RenderedShape(m: PublicationMarker)
    ensures Plain(m.Render()) && '\n' !in m.Render() && m.Render() != ""
    ensures |m.Render()| == if m.kind == InlineKind then 178 else 179
    ensures MARKER_PREFIX <= m.Render()
  {
    HexIsPlain(m.scope);
    HexIsPlain(m.fingerprint);
    var a, b, c := "scope=" + m.scope, "fingerprint=" + m.fingerprint, "kind=" + KindText(m.kind);
    assert Plain(a) && Plain(b) && Plain(c);
    var content := a + " " + (b + " " + c);
    assert Plain(content);
    assert m.Render() == MARKER_PREFIX + content + MARKER_SUFFIX;
  }

  // ----- lineage markers

  datatype LineageMarker = LineageMarker(lineage: Digest, occurrence: Digest, head: GitSha, evidence: Digest) {
    function Render(): string {
      LINEAGE_MARKER_PREFIX
      + ("lineage=" + lineage + " " + ("occurrence=" + occurrence + " " + ("head=" + head + " " + ("evidence=" + evidence))))
      + MARKER_SUFFIX
    }
  }

  /** The digest of an occurrence, a hash of the other three fields. */
  type OccurrenceHash = (Digest, GitSha, Digest) -> Digest

  function NewLineage(hash: OccurrenceHash, lineage: Digest, head: GitSha, evidence: Digest): LineageMarker {
    LineageMarker(lineage, hash(lineage, head, evidence), head, evidence)
  }

  function ParseLineage(hash: OccurrenceHash, s: string): Option<LineageMarker> {
    var content := MarkerContent(s, LINEAGE_MARKER_PREFIX);
    if content.None? then None
    else
      var parts := Split(content.value, ' ');
      if |parts| != 4 then None
      else
        var lineage, occurrence := Field(parts[0], "lineage="), Field(parts[1], "occurrence=");
        var head, evidence := Field(parts[2], "head="), Field(parts[3], "evidence=");
        if lineage.None? || occurrence.None? || head.None? || evidence.None? then None
        else if !IsDigest(lineage.value) || !IsDigest(occurrence.value) then None
        else if !IsGitSha(head.value) || !IsDigest(evidence.value) then None
        else if occurrence.value != hash(lineage.value, head.value, evidence.value) then None
        else Some(LineageMarker(lineage.value, occurrence.value, head.value, evidence.value))
  }

  /** Every lineage marker built by `new` survives printing and parsing. */
  lemma ParseRenderedLineage(hash: OccurrenceHash, lineage: Digest, head: GitSha, evidence: Digest)
    ensures var m := NewLineage(hash, lineage, head, evidence);
      ParseLineage(hash, m.Render()) == Some(m)
  {
    var m := NewLineage(hash, lineage, head, evidence);
    var a, b, c, d := "lineage=" + m.lineage, "occurrence=" + m.occurrence, "head=" + m.head, "evidence=" + m.evidence;
    var content := a + " " + (b + " " + (c + " " + d));
    assert m.Render() == LINEAGE_MARKER_PREFIX + content + MARKER_SUFFIX;
    MarkerContentOf(LINEAGE_MARKER_PREFIX, content);
    HexHasNo(m.lineage, ' ');
    HexHasNo(m.occurrence, ' ');
    HexHasNo(m.head, ' ');
    HexHasNo(m.evidence, ' ');
    assert " " == [' '];
    SplitAtFirst(a, ' ', b + " " + (c + " " + d));
    SplitThree(b, c, d);
    StripPrefixOf("lineage=", m.lineage);
    StripPrefixOf("occurrence=", m.occurrence);
    StripPrefixOf("head=", m.head);
    StripPrefixOf("evidence=", m.evidence);
  }

  /** Only a rendered marker with the right occurrence digest parses. */
  lemma ParsedLineageWasRendered(hash: OccurrenceHash, s: string)
    requires ParseLineage(hash, s).Some?
    ensures var m := ParseLineage(hash, s).value;
      s == m.Render() && m == NewLineage(hash, m.lineage, m.head, m.evidence)
  {
    var content := MarkerContent(s, LINEAGE_MARKER_PREFIX).value;
    var parts := Split(content, ' ');
    JoinSplit(content, ' ');
    var m := ParseLineage(hash, s).value;
    var a, b, c, d := parts[0], parts[1], parts[2], parts[3];
    assert parts == [a, b, c, d] && parts[1..] == [b, c, d] && parts[1..][1..] == [c, d] && parts[1..][1..][1..] == [d];
    assert Join([d], ' ') == d;
    assert Join([c, d], ' ') == c + " " + d;
    assert Join([b, c, d], ' ') == b + " " + (c + " " + d);
    assert content == a + " " + (b + " " + (c + " " + d));
    assert a == "lineage=" + m.lineage && b == "occurrence=" + m.occurrence;
    assert c == "head=" + m.head && d == "evidence=" + m.evidence;
  }

  /** A publication marker is never mistaken for a lineage marker. */
  lemma MarkerIsNotLineage(hash: OccurrenceHash, m: PublicationMarker)
    ensures ParseLineage(hash, m.Render()).None?
  {
    RenderedShape(m);
    assert m.Render()[12] == MARKER_PREFIX[12] == 'v';
    assert LINEAGE_MARKER_PREFIX[12] == 'l';
    assert !(LINEAGE_MARKER_PREFIX <= m.Render());
  }

  // ----- markers found in comment bodies

  /** The marker on the last line of a body. */
  function TerminalMarker(body: string): Option<PublicationMarker> {
    ParseMarker(LastLine(body))
  }

  /** The terminal marker of a marked body is the marker that was appended. */
  lemma TerminalOfMarked(body: string, m: PublicationMarker)
    ensures TerminalMarker(body + "\n" + m.Render()) == Some(m)
  {
    RenderedShape(m);
    LastLineAppend(body, m.Render());
    ParseRendered(m);
  }

  /** `filter_map` over the lines of a body. */
  function Parsed<T>(parse: string -> Option<T>, lines: seq<string>): seq<T> {
    if lines == [] then [] else ParsedLine(parse, lines[0]) + Parsed(parse, lines[1..])
  }

  function ParsedLine<T>(parse: string -> Option<T>, line: string): seq<T> {
    var p := parse(line);
    if p.Some? then [p.value] else []
  }

  /** The only element, if there is exactly one. */
  function Sole<T>(found: seq<T>): Option<T> {
    if |found| == 1 then Some(found[0]) else None
  }

  function LineageParser(hash: OccurrenceHash): string -> Option<LineageMarker> {
    s => ParseLineage(hash, s)
  }

  function LineageFromBody(hash: OccurrenceHash, body: string): Option<LineageMarker> {
    Sole(Parsed(LineageParser(hash), Lines(body)))
  }

  /** `finding_lineage_id`: the embedded lineage, or the compatibility identity of a body with
      exactly one publication marker. */
  function LineageId(hash: OccurrenceHash, legacy: Digest -> Digest, body: string): Option<Digest> {
    var embedded := LineageFromBody(hash, body);
    if embedded.Some? then Some(embedded.value.lineage)
    else
      var marker := Sole(Parsed(ParseMarker, Lines(body)));
      if marker.None? then None else Some(legacy(marker.value.fingerprint))
  }

  lemma {:induction false} ParsedCons<T>(parse: string -> Option<T>, line: string, rest: seq<string>)
    ensures Parsed(parse, [line] + rest) == ParsedLine(parse, line) + Parsed(parse, rest)
  {
    assert ([line] + rest)[1..] == rest;
  }

  lemma {:induction false} ParsedConcat<T>(parse: string -> Option<T>, a: seq<string>, b: seq<string>)
    ensures Parsed(parse, a + b) == Parsed(parse, a) + Parsed(parse, b)
    decreases |a|
  {
    if a == [] {
      assert a + b == b;
    } else {
      var line, rest := a[0], a[1..];
      ParsedConcat(parse, rest, b);
      assert a == [line] + rest && a + b == [line] + (rest + b);
      ParsedCons(parse, line, rest);
      ParsedCons(parse, line, rest + b);
    }
  }

  /** Terminating a text that has no carriage return changes nothing a parser that ignores blank
      lines can see. */
  lemma {:induction false} TerminatedLines<T>(parse: string -> Option<T>, a: string)
    requires '\r' !in a && parse("").None?
    ensures Parsed(parse, Lines(a + "\n")) == Parsed(parse, Lines(a))
    decreases |a|
  {
    var t := a + "\n";
    if '\n' in a {
      var i := IndexOf(a, '\n');
      var head, tail := a[..i], a[i + 1..];
      assert a == head + "\n" + tail;
      assert t == head + "\n" + (tail + "\n");
      IndexOfFirst(head, '\n', tail + "\n");
      assert t[..i] == head && t[i + 1..] == tail + "\n";
      TerminatedLines(parse, tail);
      assert Lines(t)[1..] == Lines(tail + "\n");
      assert Lines(a)[1..] == Lines(tail);
    } else {
      IndexOfFirst(a, '\n', "");
      assert a + "\n" + "" == t;
      assert t[..|a|] == a && t[|a| + 1..] == "";
      assert Lines(t) == [StripCarriageReturn(a)] == [a];
      if a != "" {
        assert Lines(a) == [a];
      }
    }
  }

  /** A text without the marker prefix has no marker line. */
  lemma {:induction false} NoMarkerLines(body: string)
    requires !Contains(body, MARKER_PREFIX)
    ensures Parsed(ParseMarker, Lines(body)) == []
    decreases |body|
  {
    if body != "" {
      var i := IndexOf(body, '\n');
      var head := if i == |body| then body else body[..i];
      var line := if i == |body| then body else StripCarriageReturn(head);
      assert line <= body;
      assert ParseMarker(line).None?;
      if i < |body| {
        ContainsTail(body, i + 1, MARKER_PREFIX);
        NoMarkerLines(body[i + 1..]);
        assert Lines(body)[1..] == Lines(body[i + 1..]);
      } else {
        assert Lines(body) == [body];
      }
    }
  }

  lemma {:induction false} ContainsTail(s: string, i: nat, part: string)
    requires i <= |s|
    ensures Contains(s[i..], part) ==> Contains(s, part)
  {
    if i == 0 {
      assert s[0..] == s;
    } else {
      assert s[1..][i - 1..] == s[i..];
      ContainsTail(s[1..], i - 1, part);
    }
  }

  /** Appending a line appends what is parsed from it. */
  lemma {:induction false} ParsedMarked<T>(parse: string -> Option<T>, body: string, last: string)
    requires '\r' !in body && parse("").None?
    requires '\n' !in last && last != ""
    ensures Parsed(parse, Lines(body + "\n" + last)) ==
      Parsed(parse, Lines(body)) + ParsedLine(parse, last)
  {
    LinesAppend(body, last);
    ParsedConcat(parse, Lines(body + "\n"), [last]);
    TerminatedLines(parse, body);
    assert Parsed(parse, [last][1..]) == [];
  }

  /** The lineage of a freshly published comment: the one its body embeds, or the compatibility
      identity of its own marker. */
  lemma {:induction false} LineageOfMarked(hash: OccurrenceHash, legacy: Digest -> Digest, body: string, m: PublicationMarker)
    requires '\r' !in body && !Contains(body, MARKER_PREFIX)
    ensures LineageId(hash, legacy, body + "\n" + m.Render())
         == var embedded := LineageId(hash, legacy, body);
            if embedded.Some? then embedded else Some(legacy(m.fingerprint))
  {
    var marked := body + "\n" + m.Render();
    RenderedShape(m);
    ParsedMarked(LineageParser(hash), body, m.Render());
    ParsedMarked(ParseMarker, body, m.Render());
    NoMarkerLines(body);
    MarkerIsNotLineage(hash, m);
    ParseRendered(m);
    assert Parsed(LineageParser(hash), Lines(marked)) == Parsed(LineageParser(hash), Lines(body));
    assert Parsed(ParseMarker, Lines(marked)) == [m];
  }
}
