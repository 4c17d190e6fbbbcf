/** What a publication plan is, told from the candidates and the notes
    (crates/revoot-core/src/publication.rs, lines 77-215, 381-642). */
module PublicationLaws {
  import opened Wrappers
  import opened Sorting
  import opened Sequences
  import opened Digests
  import opened Markers
  import opened PublicationPlans
  import Strings
  import Texts
  import TextLaws

  // ----- admissible bodies

  ghost predicate Blank(body: string) {
    forall i :: 0 <= i < |body| ==> body[i] as int in TextLaws.WHITE_SPACE
  }

  ghost predicate Short(body: string) {
    |TextLaws.Utf8(body)| <= 16384
  }

  predicate Control(c: char) {
    (c as int <= 0x1F || 0x7F <= c as int <= 0x9F) && c as int !in {0x9, 0xA}
  }

  ghost predicate Controlled(body: string) {
    exists i :: 0 <= i < |body| && Control(body[i])
  }

  ghost predicate Injected(body: string) {
    exists i: nat :: TextLaws.OccursAt(body, "<!-- revoot:v1 ", i)
  }

  /** The first of four rules that a body breaks. */
  lemma {:induction false} CandidateIssueIsTold(body: string)
    ensures match CandidateIssue(body)
      case None => !Blank(body) && Short(body) && !Controlled(body) && !Injected(body)
      case Some(EmptyBody) => Blank(body)
      case Some(BodyTooLarge) => !Blank(body) && !Short(body)
      case Some(ControlCharacter) => !Blank(body) && Short(body) && Controlled(body)
      case Some(MarkerInjection) => !Blank(body) && Short(body) && !Controlled(body) && Injected(body)
  {
    BlankIsTold(body);
    ControlsAreTold(body);
    TextLaws.ByteLengthIsEncodedLength(body);
    TextLaws.ContainsIsOccurrence(body, MARKER_PREFIX);
  }

  lemma {:induction false} BlankIsTold(body: string)
    ensures Texts.IsBlank(body) <==> Blank(body)
  {
    forall c ensures Texts.IsWhitespace(c) <==> c as int in TextLaws.WHITE_SPACE { TextLaws.WhiteSpaceIsListed(c); }
    assert forall i :: 0 <= i < |body| ==> body[i] in body;
  }

  lemma {:induction false} ControlsAreTold(body: string)
    ensures (exists c :: c in body && ForbiddenControl(c)) <==> Controlled(body)
  {
    assert forall c :: ForbiddenControl(c) <==> Control(c);
  }

  /** The inventories that are accepted. */
  lemma {:induction false} InventoryIsTold(inventory: Inventory)
    ensures InventoryIssue(inventory) == None <==>
      && inventory.complete && |inventory.notes| <= 100_000
      && (forall i :: 0 <= i < |inventory.notes| ==> inventory.notes[i].noteId > 0 && inventory.notes[i].author > 0)
      && (forall i, j :: 0 <= i < j < |inventory.notes| ==> inventory.notes[i].noteId != inventory.notes[j].noteId)
  {
    assert forall i :: 0 <= i < |inventory.notes| ==> inventory.notes[i] in inventory.notes;
  }

  // ----- markers

  function KindWord(kind: TargetKind): string {
    if kind.SummaryKind? then "summary" else "inline"
  }

  /** The text of a publication marker. */
  lemma {:induction false} MarkerText(m: PublicationMarker)
    ensures m.Render() == "<!-- revoot:v1 scope=" + m.scope + " fingerprint=" + m.fingerprint + " kind=" + KindWord(m.kind) + " -->"
  {
    assert "<!-- revoot:v1 scope=" == "<!-- revoot:v1 " + "scope=";
    assert " fingerprint=" == " " + "fingerprint=" && " kind=" == " " + "kind=";
  }

  /** The text of a lineage marker. */
  lemma {:induction false} LineageText(m: LineageMarker)
    ensures m.Render() == "<!-- revoot:lineage-v1 lineage=" + m.lineage + " occurrence=" + m.occurrence
                        + " head=" + m.head + " evidence=" + m.evidence + " -->"
  {
    assert "<!-- revoot:lineage-v1 lineage=" == "<!-- revoot:lineage-v1 " + "lineage=";
    assert " occurrence=" == " " + "occurrence=" && " head=" == " " + "head=" && " evidence=" == " " + "evidence=";
  }

  /** A body ends with a marker exactly if its last line is the text of that marker. */
  lemma {:induction false} TerminalMarkerIsTold(body: string, m: PublicationMarker)
    ensures TerminalMarker(body) == Some(m) <==> TextLaws.EndsBehind(body, '\n', m.Render())
  {
    ParseRendered(m);
    TextLaws.AfterLastIsTold(body, '\n', m.Render());
    if TerminalMarker(body) == Some(m) {
      ParsedWasRendered(Texts.LastLine(body));
    }
  }

  /** The line `i` is the only one that parses, and it parses as `x`. */
  ghost predicate OnlyAt<T>(parse: string -> Option<T>, lines: seq<string>, i: nat, x: T) {
    && i < |lines| && parse(lines[i]) == Some(x)
    && forall j :: 0 <= j < |lines| && j != i ==> parse(lines[j]).None?
  }

  ghost predicate Only<T(!new)>(parse: string -> Option<T>, lines: seq<string>, x: T) {
    exists i: nat :: OnlyAt(parse, lines, i, x)
  }

  lemma {:induction false} NoneParsed<T>(parse: string -> Option<T>, lines: seq<string>)
    ensures Parsed(parse, lines) == [] <==> forall j :: 0 <= j < |lines| ==> parse(lines[j]).None?
  {
    if lines != [] {
      NoneParsed(parse, lines[1..]);
      assert forall j :: 0 <= j < |lines| - 1 ==> lines[1..][j] == lines[j + 1];
      assert lines == [lines[0]] + lines[1..];
    }
  }

  /** A comment has a marker only if exactly one of its lines is one. */
  lemma {:induction false} SoleIsOnly<T(!new)>(parse: string -> Option<T>, lines: seq<string>, x: T)
    ensures Sole(Parsed(parse, lines)) == Some(x) <==> Only(parse, lines, x)
  {
    if lines != [] {
      var first, rest := parse(lines[0]), lines[1..];
      assert forall j :: 0 <= j < |rest| ==> rest[j] == lines[j + 1];
      NoneParsed(parse, rest);
      if first.None? {
        SoleIsOnly(parse, rest, x);
        if i: nat :| OnlyAt(parse, rest, i, x) {
          assert OnlyAt(parse, lines, i + 1, x);
        }
        if i: nat :| OnlyAt(parse, lines, i, x) {
          assert OnlyAt(parse, rest, i - 1, x);
        }
      } else if Parsed(parse, rest) == [] {
        assert first.value == x ==> OnlyAt(parse, lines, 0, x);
      }
    }
  }

  /** A comment's lineage is the one its only lineage marker names, or else the digest of the fingerprint in
      its only publication marker. */
  lemma {:induction false} LineageIsTold(h: Hashes, body: string, m: LineageMarker, p: PublicationMarker)
    ensures var lines, lineage := Texts.Lines(body), LineageId(h.occurrence, h.legacy, body);
      && (Only(LineageParser(h.occurrence), lines, m) ==> lineage == Some(m.lineage))
      && ((forall x :: !Only(LineageParser(h.occurrence), lines, x)) && Only(ParseMarker, lines, p) ==>
            lineage == Some(h.legacy(p.fingerprint)))
      && ((forall x :: !Only(LineageParser(h.occurrence), lines, x)) && (forall x :: !Only(ParseMarker, lines, x)) ==>
            lineage == None)
  {
    var lines := Texts.Lines(body);
    forall x ensures Sole(Parsed(LineageParser(h.occurrence), lines)) == Some(x) <==> Only(LineageParser(h.occurrence), lines, x) {
      SoleIsOnly(LineageParser(h.occurrence), lines, x);
    }
    forall x ensures Sole(Parsed(ParseMarker, lines)) == Some(x) <==> Only(ParseMarker, lines, x) {
      SoleIsOnly(ParseMarker, lines, x);
    }
  }

  // ----- what a plan does about its candidates

  /** A note by the bot that ends with this marker. */
  predicate Bears(bot: nat, n: Note, m: PublicationMarker) {
    n.author == bot && TerminalMarker(n.body) == Some(m)
  }

  /** A note by the bot on the same finding. */
  predicate SharesLineage(h: Hashes, bot: nat, n: Note, body: string) {
    var lineage := LineageId(h.occurrence, h.legacy, body);
    n.author == bot && lineage.Some? && LineageId(h.occurrence, h.legacy, n.body) == lineage
  }

  /** A comment is created if the bot has neither published it nor commented on its finding; otherwise it stays
      with the one note that bears its marker, or without such a note with the only one on its finding. */
  ghost predicate DecidedRightly(h: Hashes, bot: nat, notes: seq<Note>, a: Action) {
    var m, body := a.publication.marker, a.publication.body;
    match a.decision
    case Create => forall n :: n in notes ==> !Bears(bot, n, m) && !SharesLineage(h, bot, n, body)
    case NoOp(id) =>
      exists n :: n in notes && n.noteId == id &&
        if Bears(bot, n, m) then forall o :: o in notes && Bears(bot, o, m) ==> o == n
        else
          && (forall o :: o in notes ==> !Bears(bot, o, m))
          && SharesLineage(h, bot, n, body) && forall o :: o in notes && SharesLineage(h, bot, o, body) ==> o == n
  }

  /** The comment carries the scope of the snapshot, its own fingerprint and kind, and their marker on a line
      of its own at the end. */
  ghost predicate MarkedRightly(h: Hashes, snapshot: Snapshot, p: Prepared) {
    && p.marker.scope == h.scope(snapshot)
    && p.marker.fingerprint == h.fingerprint(h.scope(snapshot), p.target, p.body)
    && (p.marker.kind == SummaryKind <==> p.target.Summary?)
    && p.markedBody == p.body + "\n" + p.marker.Render()
  }

  /** A summary comes last, and the other comments by fingerprint. */
  ghost predicate OrderedRightly(actions: seq<Action>) {
    forall i, j :: 0 <= i < j < |actions| ==>
      && actions[i].publication.target.Inline?
      && (actions[j].publication.target.Inline? ==>
            Strings.Less(actions[i].publication.marker.fingerprint, actions[j].publication.marker.fingerprint))
  }

  function CandidateOf(): Action -> Candidate {
    (a: Action) => Candidate(a.publication.target, a.publication.body)
  }

  ghost predicate PlannedRightly(h: Hashes, snapshot: Snapshot, bot: nat, candidates: seq<Candidate>, notes: seq<Note>, p: Plan) {
    && p.schema == "revoot.publication-plan/v1" && p.snapshot == snapshot && p.bot == bot
    && p.digest == h.plan("revoot.publication-plan/v1", snapshot, bot, p.actions)
    && multiset(Map(CandidateOf(), p.actions)) == multiset(candidates)
    && OrderedRightly(p.actions)
    && forall a :: a in p.actions ==> MarkedRightly(h, snapshot, a.publication) && DecidedRightly(h, bot, notes, a)
  }

  lemma {:induction false} DecisionIsRight(h: Hashes, bot: nat, notes: seq<Note>, p: Prepared)
    requires |Matches(h, bot, notes, p)| <= 1
    ensures DecidedRightly(h, bot, notes, ActionFor(h, bot, notes)(p))
  {
    var exact, matches := ExactMatches(bot, notes, p.marker), Matches(h, bot, notes, p);
    forall n ensures n in exact <==> n in notes && Bears(bot, n, p.marker) { FilterMember(OwnedMark(bot, p.marker), notes, n); }
    forall n ensures n in LineageMatches(h, bot, notes, p.body) <==> n in notes && SharesLineage(h, bot, n, p.body) {
      LineageMatchesMember(h, bot, notes, p.body, n);
    }
    if matches != [] {
      assert matches == [matches[0]] && matches[0] in matches;
    }
  }

  lemma {:induction false} LineageMatchesMember(h: Hashes, bot: nat, notes: seq<Note>, body: string, n: Note)
    ensures n in LineageMatches(h, bot, notes, body) <==> n in notes && SharesLineage(h, bot, n, body)
  {
    var lineage := LineageId(h.occurrence, h.legacy, body);
    if lineage.Some? {
      FilterMember(OwnedLineage(h, bot, lineage.value), notes, n);
    }
  }

  lemma {:induction false} CandidatesBack(h: Hashes, snapshot: Snapshot, bot: nat, notes: seq<Note>, candidates: seq<Candidate>, s: seq<Prepared>)
    requires multiset(s) == multiset(Preparations(h, snapshot, candidates))
    ensures multiset(Map(CandidateOf(), Map(ActionFor(h, bot, notes), s))) == multiset(candidates)
  {
    var back := (p: Prepared) => Candidate(p.target, p.body);
    var ps := Preparations(h, snapshot, candidates);
    assert Map(CandidateOf(), Map(ActionFor(h, bot, notes), s)) == Map(back, s);
    assert Map(back, ps) == candidates;
    MapPermutation(back, s, ps);
  }

  lemma {:induction false} PlannedOrder(s: seq<Prepared>, actions: seq<Action>)
    requires StrictlySorted(Before, s) && forall i :: 0 <= i < |s| - 1 ==> !s[i].target.Summary?
    requires |actions| == |s| && forall i :: 0 <= i < |s| ==> actions[i].publication == s[i]
    ensures OrderedRightly(actions)
  {
    forall i, j | 0 <= i < j < |actions| ensures Before(actions[i].publication, actions[j].publication) {
      assert Before(s[i], s[j]);
    }
  }

  lemma {:induction false} ActionIsRight(h: Hashes, snapshot: Snapshot, bot: nat, candidates: seq<Candidate>, notes: seq<Note>, p: Prepared)
    requires p in Preparations(h, snapshot, candidates) && |Matches(h, bot, notes, p)| <= 1
    ensures MarkedRightly(h, snapshot, p) && DecidedRightly(h, bot, notes, ActionFor(h, bot, notes)(p))
  {
    DecisionIsRight(h, bot, notes, p);
  }

  lemma {:induction false} ActionsAreRight(h: Hashes, snapshot: Snapshot, bot: nat, candidates: seq<Candidate>, notes: seq<Note>, s: seq<Prepared>)
    requires Unambiguous(h, bot, notes, Preparations(h, snapshot, candidates))
    requires forall p :: p in s ==> p in Preparations(h, snapshot, candidates)
    ensures forall a :: a in Map(ActionFor(h, bot, notes), s) ==> MarkedRightly(h, snapshot, a.publication) && DecidedRightly(h, bot, notes, a)
  {
    var actions := Map(ActionFor(h, bot, notes), s);
    forall a | a in actions ensures MarkedRightly(h, snapshot, a.publication) && DecidedRightly(h, bot, notes, a) {
      var i :| 0 <= i < |s| && actions[i] == a;
      assert s[i] in s;
      ActionIsRight(h, snapshot, bot, candidates, notes, s[i]);
    }
  }

  /** A plan that the builder makes says of each candidate what its comment is and whether to create it. */
  lemma {:induction false} PlansAreRight(h: Hashes, snapshot: Snapshot, bot: nat, candidates: seq<Candidate>, inventory: Inventory)
    requires Plannable(h, snapshot, bot, candidates, inventory)
    ensures PlannedRightly(h, snapshot, bot, candidates, inventory.notes, PlanFor(h, snapshot, bot, candidates, inventory.notes))
  {
    var s := PreparationsSorted(h, snapshot, candidates);
    ActionsAreRight(h, snapshot, bot, candidates, inventory.notes, s);
    CandidatesBack(h, snapshot, bot, inventory.notes, candidates, s);
    PlannedOrder(s, Map(ActionFor(h, bot, inventory.notes), s));
  }

  ghost predicate Admissible(body: string) {
    !Blank(body) && Short(body) && !Controlled(body) && !Injected(body)
  }

  /** The plans that replay: at most a thousand ordered comments, each admissible, with its own fingerprint and
      its right marker, and short enough with it. */
  lemma {:induction false} ReplayIsTold(h: Hashes, p: Plan)
    ensures ValidPlan(h, p) <==>
      && p.schema == "revoot.publication-plan/v1" && p.bot > 0 && |p.actions| <= 1000
      && p.digest == h.plan("revoot.publication-plan/v1", p.snapshot, p.bot, p.actions)
      && OrderedRightly(p.actions) && OwnFingerprints(p.actions)
      && forall a :: a in p.actions ==> RightlyRetained(h, p.snapshot, a)
  {
    OrderIsTold(p.actions);
    forall a ensures ValidAction(h, p.snapshot, a) <==> RightlyRetained(h, p.snapshot, a) { ActionIsTold(h, p.snapshot, a); }
  }

  ghost predicate OwnFingerprints(actions: seq<Action>) {
    forall i, j :: 0 <= i < j < |actions| ==>
      actions[i].publication.marker.fingerprint != actions[j].publication.marker.fingerprint
  }

  ghost predicate RightlyRetained(h: Hashes, snapshot: Snapshot, a: Action) {
    && Admissible(a.publication.body) && MarkedRightly(h, snapshot, a.publication) && Short(a.publication.markedBody)
    && (a.decision.NoOp? ==> a.decision.existing > 0)
  }

  lemma {:induction false} ActionIsTold(h: Hashes, snapshot: Snapshot, a: Action)
    ensures ValidAction(h, snapshot, a) <==> RightlyRetained(h, snapshot, a)
  {
    CandidateIssueIsTold(a.publication.body);
    TextLaws.ByteLengthIsEncodedLength(a.publication.markedBody);
  }

  lemma {:induction false} OrderIsTold(actions: seq<Action>)
    ensures ValidOrder(actions) <==> OrderedRightly(actions) && OwnFingerprints(actions)
  {
    if ValidOrder(actions) {
      forall i, j | 0 <= i < j < |actions| ensures Before(actions[i].publication, actions[j].publication) { }
    }
    if OrderedRightly(actions) && OwnFingerprints(actions) {
      forall i, j | 0 <= i < j < |actions| ensures Before(actions[i].publication, actions[j].publication) { }
      forall i | 0 <= i < |actions| - 1 ensures !actions[i].publication.target.Summary? {
        assert actions[i + 1].publication == actions[i + 1].publication;
      }
    }
  }

  /** Planning fails for ambiguity exactly if two notes by the bot bear the marker of a comment, or none does and
      two are on its finding. */
  lemma {:induction false} AmbiguityIsTold(h: Hashes, bot: nat, notes: seq<Note>, p: Prepared)
    ensures |Matches(h, bot, notes, p)| > 1 <==>
      || TwoNotes(notes, n => Bears(bot, n, p.marker))
      || ((forall n :: n in notes ==> !Bears(bot, n, p.marker)) && TwoNotes(notes, n => SharesLineage(h, bot, n, p.body)))
  {
    var bears, shares := n => Bears(bot, n, p.marker), n => SharesLineage(h, bot, n, p.body);
    FilterSame(OwnedMark(bot, p.marker), bears, notes);
    TwoKept(bears, notes);
    TwoKept(shares, notes);
    NoneKept(bears, notes);
    var lineage := LineageId(h.occurrence, h.legacy, p.body);
    if lineage.Some? {
      FilterSame(OwnedLineage(h, bot, lineage.value), shares, notes);
    }
  }

  ghost predicate TwoNotes(notes: seq<Note>, q: Note -> bool) {
    exists i, j :: 0 <= i < j < |notes| && q(notes[i]) && q(notes[j])
  }

  lemma {:induction false} FilterSame<T>(p: T -> bool, q: T -> bool, s: seq<T>)
    requires forall x :: p(x) == q(x)
    ensures Filter(p, s) == Filter(q, s)
  {
    if s != [] {
      FilterSame(p, q, s[1..]);
    }
  }

  lemma {:induction false} NoneKept(q: Note -> bool, notes: seq<Note>)
    ensures Filter(q, notes) == [] <==> forall n :: n in notes ==> !q(n)
  {
    forall n ensures n in Filter(q, notes) <==> n in notes && q(n) { FilterMember(q, notes, n); }
    if Filter(q, notes) != [] {
      assert Filter(q, notes)[0] in Filter(q, notes);
    }
  }

  lemma {:induction false} TwoNotesCons(q: Note -> bool, n: Note, rest: seq<Note>)
    ensures TwoNotes([n] + rest, q) <==> TwoNotes(rest, q) || (q(n) && exists o :: o in rest && q(o))
  {
    var notes := [n] + rest;
    if TwoNotes(notes, q) {
      var i, j :| 0 <= i < j < |notes| && q(notes[i]) && q(notes[j]);
      assert notes[j] == rest[j - 1];
      if i > 0 {
        assert notes[i] == rest[i - 1];
      }
    }
    if TwoNotes(rest, q) {
      var i, j :| 0 <= i < j < |rest| && q(rest[i]) && q(rest[j]);
      assert notes[i + 1] == rest[i] && notes[j + 1] == rest[j];
    }
    if o :| o in rest && q(o) {
      var j :| 0 <= j < |rest| && rest[j] == o;
      assert notes[0] == n && notes[j + 1] == o;
    }
  }

  lemma {:induction false} TwoKept(q: Note -> bool, notes: seq<Note>)
    ensures |Filter(q, notes)| > 1 <==> TwoNotes(notes, q)
  {
    if notes != [] {
      TwoKept(q, notes[1..]);
      NoneKept(q, notes[1..]);
      TwoNotesCons(q, notes[0], notes[1..]);
      FilterCons(q, notes[0], notes[1..]);
      assert notes == [notes[0]] + notes[1..];
    }
  }
}
