/** Planning again after publication (crates/revoot-core/src/publication.rs, lines 391-492). */
module PublicationReplanning {
  import opened Wrappers
  import opened Sorting
  import opened Sequences
  import opened Digests
  import opened Markers
  import opened PublicationPlans
  import Texts

  /** A publication as the builder prepares it: a checked body followed by its own marker. */
  ghost predicate Genuine(p: Prepared) {
    && CandidateIssue(p.body).None?
    && p.markedBody == p.body + "\n" + p.marker.Render()
  }

  function CreatedNote(bot: nat, p: Prepared, id: nat): Note {
    Note(id, bot, p.markedBody)
  }

  /** The notes the Create actions leave behind; `ids[i]` is what the host calls the i-th one. */
  function Published(bot: nat, actions: seq<Action>, ids: seq<nat>): seq<Note> {
    if actions == [] || ids == [] then []
    else
      (if actions[0].decision.Create? then [CreatedNote(bot, actions[0].publication, ids[0])] else [])
      + Published(bot, actions[1..], ids[1..])
  }

  lemma {:induction false} PublishedMember(bot: nat, actions: seq<Action>, ids: seq<nat>, n: Note) returns (j: nat)
    requires |ids| == |actions| && n in Published(bot, actions, ids)
    ensures j < |actions| && actions[j].decision.Create? && n == CreatedNote(bot, actions[j].publication, ids[j])
  {
    if actions[0].decision.Create? && n == CreatedNote(bot, actions[0].publication, ids[0]) {
      j := 0;
    } else {
      var k := PublishedMember(bot, actions[1..], ids[1..], n);
      j := k + 1;
    }
  }

  lemma {:induction false} PublishedContains(bot: nat, actions: seq<Action>, ids: seq<nat>, j: nat)
    requires |ids| == |actions| && j < |actions| && actions[j].decision.Create?
    ensures CreatedNote(bot, actions[j].publication, ids[j]) in Published(bot, actions, ids)
  {
    if j > 0 {
      PublishedContains(bot, actions[1..], ids[1..], j - 1);
    }
  }

  /** A predicate that picks one created note out of the published ones finds just that note. */
  lemma {:induction false} PicksOne(q: Note -> bool, bot: nat, actions: seq<Action>, ids: seq<nat>, k: nat)
    requires |ids| == |actions| && k < |actions|
    requires actions[k].decision.Create? && q(CreatedNote(bot, actions[k].publication, ids[k]))
    requires forall j :: 0 <= j < |actions| && j != k && actions[j].decision.Create? ==>
      !q(CreatedNote(bot, actions[j].publication, ids[j]))
    ensures Filter(q, Published(bot, actions, ids)) == [CreatedNote(bot, actions[k].publication, ids[k])]
  {
    var rest := Published(bot, actions[1..], ids[1..]);
    var head := if actions[0].decision.Create? then [CreatedNote(bot, actions[0].publication, ids[0])] else [];
    FilterConcat(q, head, rest);
    if k == 0 {
      forall n | n in rest ensures !q(n) {
        var j := PublishedMember(bot, actions[1..], ids[1..], n);
        assert actions[j + 1].decision.Create?;
      }
      FilterNone(q, rest);
    } else {
      forall j | 0 <= j < |actions[1..]| && j != k - 1 && actions[1..][j].decision.Create?
        ensures !q(CreatedNote(bot, actions[1..][j].publication, ids[1..][j]))
      {
        assert actions[j + 1] == actions[1..][j] && ids[j + 1] == ids[1..][j];
      }
      PicksOne(q, bot, actions[1..], ids[1..], k - 1);
      if actions[0].decision.Create? {
        assert !q(head[0]);
      }
    }
  }

  lemma {:induction false} PicksNone(q: Note -> bool, bot: nat, actions: seq<Action>, ids: seq<nat>)
    requires |ids| == |actions|
    requires forall j :: 0 <= j < |actions| && actions[j].decision.Create? ==>
      !q(CreatedNote(bot, actions[j].publication, ids[j]))
    ensures Filter(q, Published(bot, actions, ids)) == []
  {
    forall n | n in Published(bot, actions, ids) ensures !q(n) {
      var j := PublishedMember(bot, actions, ids, n);
    }
    FilterNone(q, Published(bot, actions, ids));
  }

  lemma {:induction false} PicksSome(q: Note -> bool, bot: nat, actions: seq<Action>, ids: seq<nat>, j: nat)
    requires |ids| == |actions| && j < |actions|
    requires actions[j].decision.Create? && q(CreatedNote(bot, actions[j].publication, ids[j]))
    ensures Filter(q, Published(bot, actions, ids)) != []
  {
    PublishedContains(bot, actions, ids, j);
    FilterMember(q, Published(bot, actions, ids), CreatedNote(bot, actions[j].publication, ids[j]));
  }

  // ----- what the created notes look like to the planner

  lemma CreatedMarker(bot: nat, p: Prepared, id: nat, marker: PublicationMarker)
    requires Genuine(p)
    ensures OwnedMark(bot, marker)(CreatedNote(bot, p, id)) <==> marker == p.marker
  {
    TerminalOfMarked(p.body, p.marker);
  }

  lemma {:induction false} NoCarriageReturn(body: string)
    requires CandidateIssue(body).None?
    ensures '\r' !in body && !Texts.Contains(body, MARKER_PREFIX)
  {
    assert ForbiddenControl('\r');
  }

  lemma CreatedLineage(h: Hashes, bot: nat, p: Prepared, id: nat, lineage: Digest)
    requires Genuine(p)
    ensures OwnedLineage(h, bot, lineage)(CreatedNote(bot, p, id)) <==>
      LineageId(h.occurrence, h.legacy, p.body) == Some(lineage)
      || (LineageId(h.occurrence, h.legacy, p.body).None? && h.legacy(p.marker.fingerprint) == lineage)
  {
    NoCarriageReturn(p.body);
    LineageOfMarked(h.occurrence, h.legacy, p.body, p.marker);
  }

  // ----- re-planning one publication

  /** The note for `p` was found through its lineage, not through its marker. */
  predicate ByLineage(bot: nat, notes: seq<Note>, a: Action) {
    a.decision.NoOp? && ExactMatches(bot, notes, a.publication.marker) == []
  }

  /** A note found through its lineage clashes with a new comment whose compatibility identity is
      that very lineage. */
  predicate Clash(h: Hashes, bot: nat, notes: seq<Note>, found: Action, created: Action) {
    && ByLineage(bot, notes, found)
    && created.decision.Create?
    && LineageId(h.occurrence, h.legacy, created.publication.body).None?
    && LineageId(h.occurrence, h.legacy, found.publication.body) == Some(h.legacy(created.publication.marker.fingerprint))
  }

  /** Planned actions: genuine, with their own fingerprints, each decided by the planner. */
  ghost predicate Planned(h: Hashes, bot: nat, notes: seq<Note>, actions: seq<Action>) {
    && (forall i :: 0 <= i < |actions| ==>
          && Genuine(actions[i].publication)
          && |Matches(h, bot, notes, actions[i].publication)| <= 1
          && actions[i].decision == Decide(Matches(h, bot, notes, actions[i].publication)))
    && (forall i, j :: 0 <= i < j < |actions| ==>
          actions[i].publication.marker.fingerprint != actions[j].publication.marker.fingerprint)
  }

  lemma {:induction false} ExactAfter(h: Hashes, bot: nat, notes: seq<Note>, actions: seq<Action>, ids: seq<nat>, k: nat)
    requires |ids| == |actions| && k < |actions| && Planned(h, bot, notes, actions)
    ensures ExactMatches(bot, notes + Published(bot, actions, ids), actions[k].publication.marker)
         == ExactMatches(bot, notes, actions[k].publication.marker)
            + if actions[k].decision.Create? then [CreatedNote(bot, actions[k].publication, ids[k])] else []
  {
    var marker := actions[k].publication.marker;
    var q := OwnedMark(bot, marker);
    FilterConcat(q, notes, Published(bot, actions, ids));
    forall j | 0 <= j < |actions| && actions[j].decision.Create?
      ensures q(CreatedNote(bot, actions[j].publication, ids[j])) <==> j == k
    {
      CreatedMarker(bot, actions[j].publication, ids[j], marker);
    }
    if actions[k].decision.Create? {
      PicksOne(q, bot, actions, ids, k);
    } else {
      PicksNone(q, bot, actions, ids);
    }
  }

  /** A publication to be created has no note with its lineage yet. */
  lemma CreateHasNoLineageMatch(h: Hashes, bot: nat, notes: seq<Note>, a: Action)
    requires a.decision == Decide(Matches(h, bot, notes, a.publication)) && a.decision.Create?
    ensures ExactMatches(bot, notes, a.publication.marker) == []
    ensures LineageMatches(h, bot, notes, a.publication.body) == []
  {
  }

  lemma {:induction false} LineageAfter(h: Hashes, bot: nat, notes: seq<Note>, actions: seq<Action>, ids: seq<nat>, k: nat)
    requires |ids| == |actions| && k < |actions| && Planned(h, bot, notes, actions)
    requires ByLineage(bot, notes, actions[k])
    ensures var before := LineageMatches(h, bot, notes, actions[k].publication.body);
      var after := LineageMatches(h, bot, notes + Published(bot, actions, ids), actions[k].publication.body);
      && |before| == 1
      && ((exists j :: 0 <= j < |actions| && Clash(h, bot, notes, actions[k], actions[j])) ==> |after| > 1)
      && ((forall j :: 0 <= j < |actions| ==> !Clash(h, bot, notes, actions[k], actions[j])) ==> after == before)
  {
    var body := actions[k].publication.body;
    var before := LineageMatches(h, bot, notes, body);
    var lineage := LineageId(h.occurrence, h.legacy, body).value;
    var q := OwnedLineage(h, bot, lineage);
    FilterConcat(q, notes, Published(bot, actions, ids));
    forall j | 0 <= j < |actions| && actions[j].decision.Create?
      ensures q(CreatedNote(bot, actions[j].publication, ids[j])) <==> Clash(h, bot, notes, actions[k], actions[j])
    {
      CreatedLineage(h, bot, actions[j].publication, ids[j], lineage);
      CreateHasNoLineageMatch(h, bot, notes, actions[j]);
    }
    if j :| 0 <= j < |actions| && Clash(h, bot, notes, actions[k], actions[j]) {
      PicksSome(q, bot, actions, ids, j);
    } else {
      PicksNone(q, bot, actions, ids);
    }
  }

  predicate FreeOfClash(h: Hashes, bot: nat, notes: seq<Note>, actions: seq<Action>, found: Action) {
    forall j :: 0 <= j < |actions| ==> !Clash(h, bot, notes, found, actions[j])
  }

  predicate AnyClash(h: Hashes, bot: nat, notes: seq<Note>, actions: seq<Action>) {
    exists k :: 0 <= k < |actions| && !FreeOfClash(h, bot, notes, actions, actions[k])
  }

  /** The note that stands for an action once everything is published. */
  function Standing(a: Action, id: nat): Decision {
    if a.decision.Create? then NoOp(id) else a.decision
  }

  lemma {:induction false} ReplanOne(h: Hashes, bot: nat, notes: seq<Note>, actions: seq<Action>, ids: seq<nat>, k: nat)
    requires |ids| == |actions| && k < |actions| && Planned(h, bot, notes, actions)
    ensures var after := Matches(h, bot, notes + Published(bot, actions, ids), actions[k].publication);
      && (|after| <= 1 <==> FreeOfClash(h, bot, notes, actions, actions[k]))
      && (|after| <= 1 ==> Decide(after) == Standing(actions[k], ids[k]))
  {
    var p := actions[k].publication;
    ExactAfter(h, bot, notes, actions, ids, k);
    if actions[k].decision.Create? {
      CreateHasNoLineageMatch(h, bot, notes, actions[k]);
    } else if ByLineage(bot, notes, actions[k]) {
      LineageAfter(h, bot, notes, actions, ids, k);
    }
  }

  // ----- re-planning a whole review

  /** What the builder prepared for a candidate is genuine and matches at most one note. */
  lemma PreparedIsGenuine(h: Hashes, snapshot: Snapshot, bot: nat, candidates: seq<Candidate>, inventory: Inventory, p: Prepared)
    requires Plannable(h, snapshot, bot, candidates, inventory)
    requires p in Preparations(h, snapshot, candidates)
    ensures Genuine(p) && |Matches(h, bot, inventory.notes, p)| <= 1
  {
    var ps := Preparations(h, snapshot, candidates);
    var k :| 0 <= k < |ps| && ps[k] == p;
    assert candidates[k] in candidates;
  }

  lemma BuiltIsPlanned(h: Hashes, snapshot: Snapshot, bot: nat, candidates: seq<Candidate>, inventory: Inventory)
    requires Plannable(h, snapshot, bot, candidates, inventory)
    ensures Planned(h, bot, inventory.notes, PlanFor(h, snapshot, bot, candidates, inventory.notes).actions)
  {
    var s := PreparationsSorted(h, snapshot, candidates);
    var actions := PlanFor(h, snapshot, bot, candidates, inventory.notes).actions;
    assert |actions| == |s|;
    forall i | 0 <= i < |actions|
      ensures Genuine(actions[i].publication) && |Matches(h, bot, inventory.notes, actions[i].publication)| <= 1
      ensures actions[i].publication == s[i]
    {
      assert actions[i].publication == s[i] && s[i] in s;
      PreparedIsGenuine(h, snapshot, bot, candidates, inventory, s[i]);
    }
  }

  lemma {:induction false} ReplanVerdict(h: Hashes, bot: nat, notes: seq<Note>, actions: seq<Action>, ids: seq<nat>, s: seq<Prepared>)
    requires |ids| == |actions| == |s| && Planned(h, bot, notes, actions)
    requires forall i :: 0 <= i < |s| ==> s[i] == actions[i].publication
    ensures Unambiguous(h, bot, notes + Published(bot, actions, ids), s) <==> !AnyClash(h, bot, notes, actions)
  {
    var after := notes + Published(bot, actions, ids);
    forall k | 0 <= k < |s|
      ensures |Matches(h, bot, after, s[k])| <= 1 <==> FreeOfClash(h, bot, notes, actions, actions[k])
    {
      ReplanOne(h, bot, notes, actions, ids, k);
    }
    UnambiguousByIndex(h, bot, after, s);
  }

  lemma {:induction false} ReplanDecisions(h: Hashes, bot: nat, notes: seq<Note>, actions: seq<Action>, ids: seq<nat>, s: seq<Prepared>, k: nat)
    requires k < |ids| == |actions| == |s| && Planned(h, bot, notes, actions)
    requires s[k] == actions[k].publication
    requires !AnyClash(h, bot, notes, actions)
    ensures ActionFor(h, bot, notes + Published(bot, actions, ids))(s[k]) == Action(s[k], Standing(actions[k], ids[k]))
  {
    ReplanOne(h, bot, notes, actions, ids, k);
    assert FreeOfClash(h, bot, notes, actions, actions[k]);
  }

  lemma PlanShape(h: Hashes, snapshot: Snapshot, bot: nat, candidates: seq<Candidate>, notes: seq<Note>) returns (s: seq<Prepared>)
    requires ValidCandidates(h, snapshot, candidates)
    ensures s == SortBy(Before, Preparations(h, snapshot, candidates))
    ensures |PlanFor(h, snapshot, bot, candidates, notes).actions| == |s| == |candidates|
    ensures forall i :: 0 <= i < |s| ==> PlanFor(h, snapshot, bot, candidates, notes).actions[i].publication == s[i]
    ensures forall other :: Unambiguous(h, bot, other, Preparations(h, snapshot, candidates)) <==> Unambiguous(h, bot, other, s)
  {
    s := PreparationsSorted(h, snapshot, candidates);
  }

  /** The inventory once the created notes are in it. */
  function InventoryAfter(bot: nat, inventory: Inventory, actions: seq<Action>, ids: seq<nat>): Inventory {
    Inventory(true, inventory.notes + Published(bot, actions, ids))
  }

  /** Planning is idempotent exactly when no clash exists: with the created notes in the inventory,
      planning succeeds again if and only if no note found through its lineage carries the
      compatibility identity of a created comment, and then it proposes for each action nothing but
      the note that already stands for it. */
  lemma ReplanningIsIdempotent(h: Hashes, snapshot: Snapshot, bot: nat, candidates: seq<Candidate>, inventory: Inventory,
                               actions: seq<Action>, ids: seq<nat>)
    requires Plannable(h, snapshot, bot, candidates, inventory)
    requires actions == PlanFor(h, snapshot, bot, candidates, inventory.notes).actions
    requires |ids| == |candidates| && ValidInventory(InventoryAfter(bot, inventory, actions, ids))
    ensures Plannable(h, snapshot, bot, candidates, InventoryAfter(bot, inventory, actions, ids))
      <==> !AnyClash(h, bot, inventory.notes, actions)
    ensures !AnyClash(h, bot, inventory.notes, actions) ==>
      var again := PlanFor(h, snapshot, bot, candidates, InventoryAfter(bot, inventory, actions, ids).notes).actions;
      |again| == |actions| == |ids| && forall i :: 0 <= i < |actions| ==>
        again[i] == Action(actions[i].publication, Standing(actions[i], ids[i]))
  {
    var s := PlanShape(h, snapshot, bot, candidates, inventory.notes);
    BuiltIsPlanned(h, snapshot, bot, candidates, inventory);
    ReplanVerdict(h, bot, inventory.notes, actions, ids, s);
    if !AnyClash(h, bot, inventory.notes, actions) {
      var after := InventoryAfter(bot, inventory, actions, ids).notes;
      forall i | 0 <= i < |s|
        ensures PlanFor(h, snapshot, bot, candidates, after).actions[i] == Action(s[i], Standing(actions[i], ids[i]))
      {
        ReplanDecisions(h, bot, inventory.notes, actions, ids, s, i);
      }
    }
  }

  lemma UnambiguousByIndex(h: Hashes, bot: nat, notes: seq<Note>, s: seq<Prepared>)
    ensures Unambiguous(h, bot, notes, s) <==> forall k :: 0 <= k < |s| ==> |Matches(h, bot, notes, s[k])| <= 1
  {
    if Unambiguous(h, bot, notes, s) {
      forall k | 0 <= k < |s| ensures |Matches(h, bot, notes, s[k])| <= 1 {
        assert s[k] in s;
      }
    }
  }

  /** Without lineage matching there is nothing to clash. */
  lemma ExactPlansNeverClash(h: Hashes, bot: nat, notes: seq<Note>, actions: seq<Action>)
    requires forall i :: 0 <= i < |actions| ==> !ByLineage(bot, notes, actions[i])
    ensures !AnyClash(h, bot, notes, actions)
  {
  }

  // ----- a clash

  /** The letters a lineage marker is made of behind its first character. */
  ghost predicate MarkerText(s: string) {
    forall i :: 0 <= i < |s| ==> ' ' <= s[i] <= '~' && s[i] != '<'
  }

  lemma HexIsMarkerText(s: string)
    requires IsLowerHex(s)
    ensures MarkerText(s)
  {
    forall i | 0 <= i < |s| ensures IsHexDigit(s[i]) {
      assert s[i] in s;
    }
  }

  lemma FourFields(a: string, b: string, c: string, d: string)
    requires MarkerText(a) && MarkerText(b) && MarkerText(c) && MarkerText(d)
    ensures MarkerText(a + " " + (b + " " + (c + " " + d)))
  {
    assert MarkerText(c + " " + d);
    assert MarkerText(b + " " + (c + " " + d));
  }

  lemma Wrapped(prefix: string, content: string, suffix: string)
    requires prefix != "" && prefix[0] == '<' && MarkerText(prefix[1..]) && MarkerText(content) && MarkerText(suffix)
    ensures var s := prefix + content + suffix; s[0] == '<' && MarkerText(s[1..])
  {
    assert (prefix + content + suffix)[1..] == prefix[1..] + content + suffix;
  }

  lemma LineageMarkerText(m: LineageMarker)
    ensures var s := m.Render(); |s| <= 400 && s != "" && s[0] == '<' && MarkerText(s[1..])
    ensures LINEAGE_MARKER_PREFIX <= m.Render()
  {
    HexIsMarkerText(m.lineage);
    HexIsMarkerText(m.occurrence);
    HexIsMarkerText(m.head);
    HexIsMarkerText(m.evidence);
    FourFields("lineage=" + m.lineage, "occurrence=" + m.occurrence, "head=" + m.head, "evidence=" + m.evidence);
    Wrapped(
      LINEAGE_MARKER_PREFIX,
      "lineage=" + m.lineage + " " + ("occurrence=" + m.occurrence + " " + ("head=" + m.head + " " + ("evidence=" + m.evidence))),
      MARKER_SUFFIX);
  }

  /** A comment that is nothing but a lineage marker is admissible. */
  lemma LineageCommentAdmissible(m: LineageMarker)
    ensures CandidateIssue(m.Render()).None? && Texts.ByteLength(m.Render()) <= 400 && '\n' !in m.Render()
  {
    var s := m.Render();
    LineageMarkerText(m);
    forall i | 0 <= i < |s| ensures s[i] as int < 0x80 && !Texts.IsControl(s[i]) && s[i] != '\n' {
      if i > 0 {
        assert s[i] == s[1..][i - 1];
      }
    }
    AsciiLength(s);
    assert s[0] in s && !Texts.IsWhitespace(s[0]);
    assert s[12] == LINEAGE_MARKER_PREFIX[12] && LINEAGE_MARKER_PREFIX[12] != MARKER_PREFIX[12];
    Texts.NotContainedAtStart(s, MARKER_PREFIX);
  }

  lemma LineageIsNotMarker(m: LineageMarker)
    ensures ParseMarker(m.Render()).None?
  {
    var s := m.Render();
    LineageMarkerText(m);
    assert s[12] == LINEAGE_MARKER_PREFIX[12] && LINEAGE_MARKER_PREFIX[12] != MARKER_PREFIX[12];
    assert !(MARKER_PREFIX <= s);
  }

  /** It carries that lineage and no publication marker. */
  lemma LineageCommentLineage(h: Hashes, m: LineageMarker)
    requires m == NewLineage(h.occurrence, m.lineage, m.head, m.evidence)
    ensures LineageId(h.occurrence, h.legacy, m.Render()) == Some(m.lineage) && TerminalMarker(m.Render()).None?
  {
    var s := m.Render();
    LineageCommentAdmissible(m);
    LineageIsNotMarker(m);
    Texts.OneLine(s);
    ParseRenderedLineage(h.occurrence, m.lineage, m.head, m.evidence);
    ParsedCons(LineageParser(h.occurrence), s, []);
    assert [s] + [] == [s];
  }

  const PLAIN_BODY := "Summary"

  lemma PlainCommentAdmissible()
    ensures CandidateIssue(PLAIN_BODY).None? && Texts.ByteLength(PLAIN_BODY) <= 400
  {
    AsciiLength(PLAIN_BODY);
    assert PLAIN_BODY[0] in PLAIN_BODY && !Texts.IsWhitespace(PLAIN_BODY[0]);
    Texts.NotContained(PLAIN_BODY, MARKER_PREFIX);
  }

  lemma PlainCommentLineage(h: Hashes)
    ensures LineageId(h.occurrence, h.legacy, PLAIN_BODY).None?
  {
    var s := PLAIN_BODY;
    Texts.OneLine(s);
    assert s[0] != MARKER_PREFIX[0] && s[0] != LINEAGE_MARKER_PREFIX[0];
    ParsedCons(LineageParser(h.occurrence), s, []);
    ParsedCons(ParseMarker, s, []);
    assert [s] + [] == [s];
  }

  /** A note kept for its lineage, and a new comment whose compatibility identity is that lineage. */
  ghost predicate Twins(h: Hashes, bot: nat, n: Note, found: Prepared, created: Prepared) {
    && n.author == bot && n.noteId != 0 && TerminalMarker(n.body).None?
    && LineageId(h.occurrence, h.legacy, n.body) == Some(h.legacy(created.marker.fingerprint))
    && LineageId(h.occurrence, h.legacy, found.body) == LineageId(h.occurrence, h.legacy, n.body)
    && LineageId(h.occurrence, h.legacy, created.body).None?
  }

  lemma TwinsClash(h: Hashes, bot: nat, n: Note, found: Prepared, created: Prepared, actions: seq<Action>)
    requires Twins(h, bot, n, found, created)
    requires ActionFor(h, bot, [n])(found) in actions && ActionFor(h, bot, [n])(created) in actions
    ensures AnyClash(h, bot, [n], actions)
  {
    MatchesOfNote(h, bot, n, found);
    MatchesOfNote(h, bot, n, created);
    var k :| 0 <= k < |actions| && actions[k] == ActionFor(h, bot, [n])(found);
    var j :| 0 <= j < |actions| && actions[j] == ActionFor(h, bot, [n])(created);
    assert Clash(h, bot, [n], actions[k], actions[j]);
    assert !FreeOfClash(h, bot, [n], actions, actions[k]);
  }

  /** Whatever is prepared has its action in the plan. */
  lemma PlannedAction(h: Hashes, snapshot: Snapshot, bot: nat, candidates: seq<Candidate>, notes: seq<Note>, p: Prepared)
    requires p in Preparations(h, snapshot, candidates)
    ensures ActionFor(h, bot, notes)(p) in PlanFor(h, snapshot, bot, candidates, notes).actions
  {
    var ps := Preparations(h, snapshot, candidates);
    var s := SortBy(Before, ps);
    SameElements(ps, s);
    assert p in s;
    var i :| 0 <= i < |s| && s[i] == p;
    assert PlanFor(h, snapshot, bot, candidates, notes).actions[i] == ActionFor(h, bot, notes)(p);
  }

  /** A single owned note without a terminal marker makes nothing ambiguous. */
  lemma OneNotePlannable(h: Hashes, snapshot: Snapshot, bot: nat, candidates: seq<Candidate>, n: Note)
    requires bot != 0 && n.author == bot && n.noteId != 0 && TerminalMarker(n.body).None?
    requires ValidCandidates(h, snapshot, candidates)
    ensures Plannable(h, snapshot, bot, candidates, Inventory(true, [n]))
  {
    forall p | p in Preparations(h, snapshot, candidates) ensures |Matches(h, bot, [n], p)| <= 1 {
      MatchesOfNote(h, bot, n, p);
    }
  }

  lemma TwinsPlanned(h: Hashes, snapshot: Snapshot, bot: nat, candidates: seq<Candidate>, n: Note)
    requires |candidates| == 2
    requires Twins(h, bot, n, PrepareWith(h, snapshot)(candidates[0]), PrepareWith(h, snapshot)(candidates[1]))
    ensures AnyClash(h, bot, [n], PlanFor(h, snapshot, bot, candidates, [n]).actions)
  {
    var ps := Preparations(h, snapshot, candidates);
    assert ps[0] in ps && ps[1] in ps;
    PlannedAction(h, snapshot, bot, candidates, [n], ps[0]);
    PlannedAction(h, snapshot, bot, candidates, [n], ps[1]);
    TwinsClash(h, bot, n, ps[0], ps[1], PlanFor(h, snapshot, bot, candidates, [n]).actions);
  }

  /** The lineage marker whose lineage is the compatibility identity of the plain summary. */
  function ClashingLineage(h: Hashes, snapshot: Snapshot, head: GitSha, evidence: Digest): LineageMarker {
    NewLineage(h.occurrence, h.legacy(Prepare(h, snapshot, Summary, PLAIN_BODY).marker.fingerprint), head, evidence)
  }

  /** A comment that carries that lineage, and the plain summary. */
  function ClashingCandidates(h: Hashes, snapshot: Snapshot, anchor: string, head: GitSha, evidence: Digest): seq<Candidate> {
    [Candidate(Inline(anchor), ClashingLineage(h, snapshot, head, evidence).Render()), Candidate(Summary, PLAIN_BODY)]
  }

  /** A note that an earlier review left for that lineage. */
  function ClashingNote(h: Hashes, snapshot: Snapshot, bot: nat, head: GitSha, evidence: Digest): Note {
    Note(1, bot, ClashingLineage(h, snapshot, head, evidence).Render())
  }

  /** Clashes happen whatever the snapshot and the digests are, as long as the two candidates have
      different fingerprints: a summary to be created, and a comment kept for a lineage that happens to
      be the compatibility identity of that summary. The first plan succeeds. */
  lemma ClashExists(h: Hashes, snapshot: Snapshot, bot: nat, anchor: string, head: GitSha, evidence: Digest)
    requires bot != 0
    requires DistinctFingerprints(Preparations(h, snapshot, ClashingCandidates(h, snapshot, anchor, head, evidence)))
    ensures var candidates, n := ClashingCandidates(h, snapshot, anchor, head, evidence), ClashingNote(h, snapshot, bot, head, evidence);
      && Plannable(h, snapshot, bot, candidates, Inventory(true, [n]))
      && AnyClash(h, bot, [n], PlanFor(h, snapshot, bot, candidates, [n]).actions)
  {
    var lineage := ClashingLineage(h, snapshot, head, evidence);
    var candidates, n := ClashingCandidates(h, snapshot, anchor, head, evidence), ClashingNote(h, snapshot, bot, head, evidence);
    TwinCandidatesValid(h, snapshot, anchor, lineage);
    LineageCommentLineage(h, lineage);
    PlainCommentLineage(h);
    OneNotePlannable(h, snapshot, bot, candidates, n);
    TwinsPlanned(h, snapshot, bot, candidates, n);
  }

  /** Notes created under new identities keep the inventory valid. */
  lemma FreshNotesValid(bot: nat, inventory: Inventory, actions: seq<Action>, ids: seq<nat>)
    requires bot != 0 && ValidInventory(inventory) && |ids| == |actions| && Distinct(ids)
    requires |inventory.notes| + |ids| <= MAX_EXISTING_NOTES
    requires forall id :: id in ids ==> id != 0 && forall n :: n in inventory.notes ==> n.noteId != id
    ensures ValidInventory(InventoryAfter(bot, inventory, actions, ids))
  {
    PublishedNotes(bot, actions, ids);
    var created := Published(bot, actions, ids);
    var all := inventory.notes + created;
    forall i, j | 0 <= i < j < |all| ensures all[i].noteId != all[j].noteId {
      if i < |inventory.notes| <= j {
        assert all[i] in inventory.notes && all[j] in created;
      }
    }
  }

  lemma {:induction false} PublishedNotes(bot: nat, actions: seq<Action>, ids: seq<nat>)
    requires |ids| == |actions| && Distinct(ids)
    ensures var created := Published(bot, actions, ids);
      && UniqueNotes(created) && |created| <= |ids| && forall n :: n in created ==> n.author == bot && n.noteId in ids
  {
    if ids != [] {
      PublishedNotes(bot, actions[1..], ids[1..]);
      var rest := Published(bot, actions[1..], ids[1..]);
      forall n | n in rest ensures n.noteId != ids[0] && n.noteId in ids {
        var k :| 0 <= k < |ids[1..]| && ids[1..][k] == n.noteId;
        assert ids[k + 1] == n.noteId;
      }
    }
  }

  /** Whatever the review, a clash stops planning once its comments are published under new identities. */
  lemma ClashStopsReplanning(h: Hashes, snapshot: Snapshot, bot: nat, candidates: seq<Candidate>, inventory: Inventory, ids: seq<nat>)
    requires Plannable(h, snapshot, bot, candidates, inventory)
    requires AnyClash(h, bot, inventory.notes, PlanFor(h, snapshot, bot, candidates, inventory.notes).actions)
    requires |ids| == |candidates| && Distinct(ids) && |inventory.notes| + |ids| <= MAX_EXISTING_NOTES
    requires forall id :: id in ids ==> id != 0 && forall n :: n in inventory.notes ==> n.noteId != id
    ensures var after := InventoryAfter(bot, inventory, PlanFor(h, snapshot, bot, candidates, inventory.notes).actions, ids);
      ValidInventory(after) && !Plannable(h, snapshot, bot, candidates, after)
  {
    var actions := PlanFor(h, snapshot, bot, candidates, inventory.notes).actions;
    var s := PlanShape(h, snapshot, bot, candidates, inventory.notes);
    FreshNotesValid(bot, inventory, actions, ids);
    ReplanningIsIdempotent(h, snapshot, bot, candidates, inventory, actions, ids);
  }

  /** Digests under which the two candidates differ. */
  function TellingApart(zeros: Digest, ones: Digest): Hashes {
    Hashes(
      _ => zeros, (_, target: Target, _) => if target.Summary? then zeros else ones, (_, _, _) => zeros, d => d, (_, _, _, _) => zeros)
  }

  lemma ToldApart(zeros: Digest, ones: Digest, snapshot: Snapshot, anchor: string, head: GitSha, evidence: Digest)
    requires zeros != ones
    ensures var h := TellingApart(zeros, ones);
      DistinctFingerprints(Preparations(h, snapshot, ClashingCandidates(h, snapshot, anchor, head, evidence)))
  {
  }

  /** There are digests and a review with a clash. */
  lemma ClashWitness(snapshot: Snapshot, bot: nat, anchor: string, head: GitSha) returns (h: Hashes, candidates: seq<Candidate>, n: Note)
    requires bot != 0
    ensures Plannable(h, snapshot, bot, candidates, Inventory(true, [n]))
    ensures AnyClash(h, bot, [n], PlanFor(h, snapshot, bot, candidates, [n]).actions)
    ensures |candidates| == 2
  {
    var zeros: Digest, ones: Digest := seq(64, _ => '0'), seq(64, _ => '1');
    assert zeros[0] != ones[0];
    h := TellingApart(zeros, ones);
    candidates, n := ClashingCandidates(h, snapshot, anchor, head, zeros), ClashingNote(h, snapshot, bot, head, zeros);
    ToldApart(zeros, ones, snapshot, anchor, head, zeros);
    ClashExists(h, snapshot, bot, anchor, head, zeros);
  }

  /** So planning is not idempotent: a review is planned and published, and then cannot be planned again. */
  lemma NotAlwaysIdempotent(snapshot: Snapshot, bot: nat, anchor: string, head: GitSha)
    returns (h: Hashes, candidates: seq<Candidate>, before: Inventory, ids: seq<nat>, after: Inventory)
    requires bot != 0
    ensures Plannable(h, snapshot, bot, candidates, before)
    ensures |ids| == |candidates|
    ensures after == InventoryAfter(bot, before, PlanFor(h, snapshot, bot, candidates, before.notes).actions, ids)
    ensures ValidInventory(after) && !Plannable(h, snapshot, bot, candidates, after)
  {
    var n;
    h, candidates, n := ClashWitness(snapshot, bot, anchor, head);
    before := Inventory(true, [n]);
    ids := FreshIdentities(n);
    after := InventoryAfter(bot, before, PlanFor(h, snapshot, bot, candidates, before.notes).actions, ids);
    ClashStopsReplanning(h, snapshot, bot, candidates, before, ids);
  }

  lemma FreshIdentities(n: Note) returns (ids: seq<nat>)
    ensures |ids| == 2 && Distinct(ids) && forall id :: id in ids ==> id != 0 && id != n.noteId
  {
    ids := [n.noteId + 1, n.noteId + 2];
  }

  lemma TwinCandidatesValid(h: Hashes, snapshot: Snapshot, anchor: string, lineage: LineageMarker)
    requires DistinctFingerprints(Preparations(h, snapshot, [Candidate(Inline(anchor), lineage.Render()), Candidate(Summary, PLAIN_BODY)]))
    ensures ValidCandidates(h, snapshot, [Candidate(Inline(anchor), lineage.Render()), Candidate(Summary, PLAIN_BODY)])
  {
    var inline, summary := Candidate(Inline(anchor), lineage.Render()), Candidate(Summary, PLAIN_BODY);
    LineageCommentAdmissible(lineage);
    PlainCommentAdmissible();
    TwinsPrepared(h, snapshot, inline, summary);
  }

  lemma ShortBodyFits(h: Hashes, snapshot: Snapshot, c: Candidate)
    requires Texts.ByteLength(c.body) <= 400
    ensures Fits(PrepareWith(h, snapshot)(c))
  {
    MarkedLength(h, snapshot, c.target, c.body);
  }

  lemma TwinsPrepared(h: Hashes, snapshot: Snapshot, inline: Candidate, summary: Candidate)
    requires inline.target.Inline? && summary.target.Summary?
    requires CandidateIssue(inline.body).None? && CandidateIssue(summary.body).None?
    requires Texts.ByteLength(inline.body) <= 400 && Texts.ByteLength(summary.body) <= 400
    requires DistinctFingerprints(Preparations(h, snapshot, [inline, summary]))
    ensures ValidCandidates(h, snapshot, [inline, summary])
  {
    var candidates := [inline, summary];
    var found, created := PrepareWith(h, snapshot)(inline), PrepareWith(h, snapshot)(summary);
    ShortBodyFits(h, snapshot, inline);
    ShortBodyFits(h, snapshot, summary);
    assert Preparations(h, snapshot, candidates) == [found, created];
    OneSummary(found, created);
  }

  lemma OneSummary(found: Prepared, created: Prepared)
    requires found.target.Inline?
    ensures |Filter(IsSummary(), [found, created])| <= 1
  {
    FilterCons(IsSummary(), found, [created]);
    FilterCons(IsSummary(), created, []);
    assert [found] + [created] == [found, created] && [created] + [] == [created];
  }

  /** A single note without a terminal marker matches by lineage or not at all. */
  lemma MatchesOfNote(h: Hashes, bot: nat, n: Note, p: Prepared)
    requires n.author == bot && TerminalMarker(n.body).None?
    ensures ExactMatches(bot, [n], p.marker) == []
    ensures var wanted, held := LineageId(h.occurrence, h.legacy, p.body), LineageId(h.occurrence, h.legacy, n.body);
      Matches(h, bot, [n], p) == if wanted.Some? && held == wanted then [n] else []
  {
    assert [n] + [] == [n];
    FilterCons(OwnedMark(bot, p.marker), n, []);
    var wanted := LineageId(h.occurrence, h.legacy, p.body);
    if wanted.Some? {
      FilterCons(OwnedLineage(h, bot, wanted.value), n, []);
    }
  }
}
