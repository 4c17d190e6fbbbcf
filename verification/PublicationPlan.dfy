/** Create/no-op publication planning (crates/revoot-core/src/publication.rs, lines 24-642). */
module PublicationPlans {
  import opened Wrappers
  import opened Sorting
  import opened Sequences
  import opened Digests
  import opened Markers
  import Strings
  import Texts

  const MAX_COMMENT_BYTES := 16 * 1024
  const MAX_CANDIDATES := 1000
  const MAX_EXISTING_NOTES := 100_000
  const PLAN_SCHEMA := "revoot.publication-plan/v1"

  /** An immutable snapshot identity, as its canonical serialization. */
  type Snapshot = string

  datatype Target = Inline(anchorId: string) | Summary

  datatype Candidate = Candidate(target: Target, body: string)

  datatype Note = Note(noteId: nat, author: nat, body: string)

  datatype Inventory = Inventory(complete: bool, notes: seq<Note>)

  datatype Prepared = Prepared(target: Target, body: string, marker: PublicationMarker, markedBody: string)

  datatype Decision = Create | NoOp(existing: nat)

  datatype Action = Action(publication: Prepared, decision: Decision)

  datatype Plan = Plan(schema: string, snapshot: Snapshot, bot: nat, actions: seq<Action>, digest: Digest)

  /** The digests the source computes with SHA-256. */
  datatype Hashes = Hashes(
    scope: Snapshot -> Digest,
    fingerprint: (Digest, Target, string) -> Digest,
    occurrence: OccurrenceHash,
    legacy: Digest -> Digest,
    plan: (string, Snapshot, nat, seq<Action>) -> Digest)

  datatype CandidateError = EmptyBody | BodyTooLarge | ControlCharacter | MarkerInjection

  datatype ReplayError =
    | SchemaVersion | BotIdentity | ActionCount | BadCandidate(error: CandidateError) | SummaryNotLast
    | ActionOrder | MarkerOrFingerprint | DuplicateFingerprint | NoteIdentity | PlanDigest

  datatype PlanError =
    | InventoryIncomplete | InventoryTooLarge | PlanBotIdentity | DuplicateNoteId | CandidateCount
    | RejectedCandidate(error: CandidateError) | RepeatedFingerprint | MultipleSummaries
    | AmbiguousOwnedMatch | InternalReplay(replay: ReplayError)

  // ----- candidates

  predicate ForbiddenControl(c: char) {
    Texts.IsControl(c) && c != '\n' && c != '\t'
  }

  function CandidateIssue(body: string): Option<CandidateError> {
    if Texts.IsBlank(body) then Some(EmptyBody)
    else if Texts.ByteLength(body) > MAX_COMMENT_BYTES then Some(BodyTooLarge)
    else if exists c :: c in body && ForbiddenControl(c) then Some(ControlCharacter)
    else if Texts.Contains(body, MARKER_PREFIX) then Some(MarkerInjection)
    else None
  }

  function KindOf(target: Target): TargetKind {
    if target.Summary? then SummaryKind else InlineKind
  }

  /** Bind a body to its snapshot, target and marker. */
  function Prepare(h: Hashes, snapshot: Snapshot, target: Target, body: string): Prepared {
    var scope := h.scope(snapshot);
    var marker := PublicationMarker(scope, h.fingerprint(scope, target, body), KindOf(target));
    Prepared(target, body, marker, body + "\n" + marker.Render())
  }

  predicate Fits(p: Prepared) {
    Texts.ByteLength(p.markedBody) <= MAX_COMMENT_BYTES
  }

  /** Marking a body adds 179 bytes for an inline comment and 180 for a summary. */
  lemma {:induction false} MarkedLength(h: Hashes, snapshot: Snapshot, target: Target, body: string)
    ensures Texts.ByteLength(Prepare(h, snapshot, target, body).markedBody)
         == Texts.ByteLength(body) + if target.Summary? then 180 else 179
  {
    var p := Prepare(h, snapshot, target, body);
    var m := p.marker.Render();
    RenderedShape(p.marker);
    AsciiLength(m);
    Texts.ByteLengthConcat(body + "\n", m);
    Texts.ByteLengthConcat(body, "\n");
    assert Texts.ByteLength("\n") == 1;
  }

  lemma {:induction false} AsciiLength(s: string)
    requires forall i :: 0 <= i < |s| ==> s[i] as int < 0x80
    ensures Texts.ByteLength(s) == |s|
  {
    if s != "" {
      AsciiLength(s[1..]);
    }
  }

  /** `prepare_publication`: panics exactly for the bodies that are valid but too long once marked. */
  function PrepareOrPanic(h: Hashes, snapshot: Snapshot, c: Candidate): Option<Prepared> {
    var p := Prepare(h, snapshot, c.target, c.body);
    if CandidateIssue(c.body).Some? || !Fits(p) then None else Some(p)
  }

  // ----- inventory

  function NoteIssue(notes: seq<Note>, seen: set<nat>): (bad: bool)
    ensures !bad <==>
      && (forall n :: n in notes ==> n.noteId != 0 && n.author != 0 && n.noteId !in seen)
      && (forall i, j :: 0 <= i < j < |notes| ==> notes[i].noteId != notes[j].noteId)
  {
    if notes == [] then false
    else
      var n := notes[0];
      assert notes == [n] + notes[1..];
      n.noteId == 0 || n.author == 0 || n.noteId in seen || NoteIssue(notes[1..], seen + {n.noteId})
  }

  /** Positive identities, no note twice, within the bound. */
  ghost predicate ValidInventory(inventory: Inventory) {
    && inventory.complete
    && |inventory.notes| <= MAX_EXISTING_NOTES
    && (forall n :: n in inventory.notes ==> n.noteId != 0 && n.author != 0)
    && UniqueNotes(inventory.notes)
  }

  ghost predicate UniqueNotes(notes: seq<Note>) {
    forall i, j :: 0 <= i < j < |notes| ==> notes[i].noteId != notes[j].noteId
  }

  function InventoryIssue(inventory: Inventory): (e: Option<PlanError>)
    ensures e.None? <==> ValidInventory(inventory)
    ensures e.Some? ==>
      e.value == if !inventory.complete then InventoryIncomplete
                 else if |inventory.notes| > 100_000 then InventoryTooLarge else DuplicateNoteId
  {
    if !inventory.complete then Some(InventoryIncomplete)
    else if |inventory.notes| > MAX_EXISTING_NOTES then Some(InventoryTooLarge)
    else if NoteIssue(inventory.notes, {}) then Some(DuplicateNoteId)
    else None
  }

  // ----- matching

  function OwnedMark(bot: nat, marker: PublicationMarker): Note -> bool {
    (n: Note) => n.author == bot && TerminalMarker(n.body) == Some(marker)
  }

  function OwnedLineage(h: Hashes, bot: nat, lineage: Digest): Note -> bool {
    (n: Note) => n.author == bot && LineageId(h.occurrence, h.legacy, n.body) == Some(lineage)
  }

  function ExactMatches(bot: nat, notes: seq<Note>, marker: PublicationMarker): seq<Note> {
    Filter(OwnedMark(bot, marker), notes)
  }

  function LineageMatches(h: Hashes, bot: nat, notes: seq<Note>, body: string): seq<Note> {
    var lineage := LineageId(h.occurrence, h.legacy, body);
    if lineage.None? then [] else Filter(OwnedLineage(h, bot, lineage.value), notes)
  }

  /** Notes that stand for a publication: exact marker matches, or else lineage matches. */
  function Matches(h: Hashes, bot: nat, notes: seq<Note>, p: Prepared): seq<Note> {
    var exact := ExactMatches(bot, notes, p.marker);
    if exact == [] then LineageMatches(h, bot, notes, p.body) else exact
  }

  function Decide(matches: seq<Note>): Decision {
    if matches == [] then Create else NoOp(matches[0].noteId)
  }

  function ActionFor(h: Hashes, bot: nat, notes: seq<Note>): Prepared -> Action {
    (p: Prepared) => Action(p, Decide(Matches(h, bot, notes, p)))
  }

  // ----- the plan

  predicate Before(l: Prepared, r: Prepared) {
    if l.target.Summary? != r.target.Summary? then r.target.Summary?
    else Strings.Less(l.marker.fingerprint, r.marker.fingerprint)
  }

  lemma BeforeOrder()
    ensures StrictWeak(Before)
    ensures forall l: Prepared, r: Prepared :: l.marker.fingerprint != r.marker.fingerprint ==> Before(l, r) || Before(r, l)
  {
    Strings.LessIsTotalOrder();
  }

  function PrepareWith(h: Hashes, snapshot: Snapshot): Candidate -> Prepared {
    (c: Candidate) => Prepare(h, snapshot, c.target, c.body)
  }

  function Preparations(h: Hashes, snapshot: Snapshot, candidates: seq<Candidate>): seq<Prepared> {
    Map(PrepareWith(h, snapshot), candidates)
  }

  function IsSummary(): Prepared -> bool {
    (p: Prepared) => p.target.Summary?
  }

  ghost predicate DistinctFingerprints(ps: seq<Prepared>) {
    forall i, j :: 0 <= i < j < |ps| ==> ps[i].marker.fingerprint != ps[j].marker.fingerprint
  }

  /** Candidates that are valid, fit once marked, have their own fingerprints, and include at most
      one summary. */
  ghost predicate ValidCandidates(h: Hashes, snapshot: Snapshot, candidates: seq<Candidate>) {
    && |candidates| <= MAX_CANDIDATES
    && (forall c :: c in candidates ==> CandidateIssue(c.body).None? && Fits(PrepareWith(h, snapshot)(c)))
    && DistinctFingerprints(Preparations(h, snapshot, candidates))
    && |Filter(IsSummary(), Preparations(h, snapshot, candidates))| <= 1
  }

  ghost predicate Unambiguous(h: Hashes, bot: nat, notes: seq<Note>, ps: seq<Prepared>) {
    forall p :: p in ps ==> |Matches(h, bot, notes, p)| <= 1
  }

  /** When planning succeeds. */
  ghost predicate Plannable(h: Hashes, snapshot: Snapshot, bot: nat, candidates: seq<Candidate>, inventory: Inventory) {
    && bot != 0
    && ValidInventory(inventory)
    && ValidCandidates(h, snapshot, candidates)
    && Unambiguous(h, bot, inventory.notes, Preparations(h, snapshot, candidates))
  }

  function Seal(h: Hashes, snapshot: Snapshot, bot: nat, actions: seq<Action>): Plan {
    Plan(PLAN_SCHEMA, snapshot, bot, actions, h.plan(PLAN_SCHEMA, snapshot, bot, actions))
  }

  /** The plan of a successful call. */
  function PlanFor(h: Hashes, snapshot: Snapshot, bot: nat, candidates: seq<Candidate>, notes: seq<Note>): Plan {
    Seal(h, snapshot, bot,
         Map(ActionFor(h, bot, notes), SortBy(Before, Preparations(h, snapshot, candidates))))
  }

  // ----- replay validation

  ghost predicate ValidAction(h: Hashes, snapshot: Snapshot, a: Action) {
    && CandidateIssue(a.publication.body).None?
    && a.publication == Prepare(h, snapshot, a.publication.target, a.publication.body)
    && Fits(a.publication)
    && a.decision != NoOp(0)
  }

  /** Sorted by kind and fingerprint, no fingerprint twice, and a summary only at the end. */
  ghost predicate ValidOrder(actions: seq<Action>) {
    && (forall i, j :: 0 <= i < j < |actions| ==> Before(actions[i].publication, actions[j].publication))
    && (forall i, j :: 0 <= i < j < |actions| ==>
          actions[i].publication.marker.fingerprint != actions[j].publication.marker.fingerprint)
    && (forall i :: 0 <= i < |actions| - 1 ==> !actions[i].publication.target.Summary?)
  }

  /** The plans `validate_replay` accepts. */
  ghost predicate ValidPlan(h: Hashes, p: Plan) {
    && p.schema == PLAN_SCHEMA
    && p.bot != 0
    && |p.actions| <= MAX_CANDIDATES
    && (forall a :: a in p.actions ==> ValidAction(h, p.snapshot, a))
    && ValidOrder(p.actions)
    && p.digest == h.plan(p.schema, p.snapshot, p.bot, p.actions)
  }

  /** A body that passes validation but whose marked form is too long. */
  ghost predicate Oversized(h: Hashes, snapshot: Snapshot, target: Target, body: string) {
    CandidateIssue(body).None? && !Fits(Prepare(h, snapshot, target, body))
  }

  /** That happens exactly to admissible bodies longer than a comment minus its marker line. */
  lemma {:induction false} OversizedExactly(h: Hashes, snapshot: Snapshot, target: Target, body: string)
    ensures Oversized(h, snapshot, target, body) <==>
      CandidateIssue(body).None? && Texts.ByteLength(body) > MAX_COMMENT_BYTES - if target.Summary? then 180 else 179
  {
    MarkedLength(h, snapshot, target, body);
  }

  /** Such bodies exist: plain letters. */
  lemma OversizedLetters(h: Hashes, snapshot: Snapshot, target: Target, body: string)
    requires MAX_COMMENT_BYTES - 179 < |body| <= MAX_COMMENT_BYTES && forall c :: c in body ==> 'a' <= c <= 'z'
    ensures Oversized(h, snapshot, target, body)
  {
    assert forall i :: 0 <= i < |body| ==> body[i] in body;
    AsciiLength(body);
    assert body[0] in body && MARKER_PREFIX[0] == '<';
    Texts.NotContained(body, MARKER_PREFIX);
    OversizedExactly(h, snapshot, target, body);
  }

  /** `e` is the first check that an action fails, in the order of the checks. */
  ghost predicate ActionRefused(h: Hashes, snapshot: Snapshot, a: Action, previous: Option<Prepared>, sawSummary: bool,
                                fingerprints: set<Digest>, e: ReplayError)
  {
    var p, ordered := a.publication, previous.Some? ==> Before(previous.value, a.publication);
    var genuine := p == Prepare(h, snapshot, p.target, p.body) && Fits(p);
    match e
    case BadCandidate(issue) => CandidateIssue(p.body) == Some(issue)
    case SummaryNotLast => CandidateIssue(p.body).None? && sawSummary
    case ActionOrder => CandidateIssue(p.body).None? && !sawSummary && !ordered
    case MarkerOrFingerprint => CandidateIssue(p.body).None? && !sawSummary && ordered && p != Prepare(h, snapshot, p.target, p.body)
    case DuplicateFingerprint => !sawSummary && ordered && genuine && p.marker.fingerprint in fingerprints
    case NoteIdentity => !sawSummary && ordered && genuine && p.marker.fingerprint !in fingerprints && a.decision == NoOp(0)
    case _ => false
  }

  /** The checks of one action given the previous one. */
  method ValidateAction(h: Hashes, snapshot: Snapshot, a: Action, previous: Option<Prepared>, sawSummary: bool, fingerprints: set<Digest>)
    returns (r: Attempt<(), ReplayError>)
    ensures r.Done? <==>
      && ValidAction(h, snapshot, a)
      && !sawSummary
      && (previous.Some? ==> Before(previous.value, a.publication))
      && a.publication.marker.fingerprint !in fingerprints
    ensures r.Panicked? <==>
      && Oversized(h, snapshot, a.publication.target, a.publication.body)
      && !sawSummary
      && (previous.Some? ==> Before(previous.value, a.publication))
    ensures r.Rejected? ==> ActionRefused(h, snapshot, a, previous, sawSummary, fingerprints, r.error)
  {
    var issue := CandidateIssue(a.publication.body);
    if issue.Some? {
      return Rejected(BadCandidate(issue.value));
    }
    if sawSummary {
      return Rejected(SummaryNotLast);
    }
    if previous.Some? && !Before(previous.value, a.publication) {
      return Rejected(ActionOrder);
    }
    var expected := PrepareOrPanic(h, snapshot, Candidate(a.publication.target, a.publication.body));
    if expected.None? {
      return Panicked;
    }
    if expected.value != a.publication || a.publication.marker.scope != h.scope(snapshot) {
      return Rejected(MarkerOrFingerprint);
    }
    if a.publication.marker.fingerprint in fingerprints {
      return Rejected(DuplicateFingerprint);
    }
    if a.decision == NoOp(0) {
      return Rejected(NoteIdentity);
    }
    return Done(());
  }

  ghost function FingerprintsOf(actions: seq<Action>): set<Digest> {
    set a | a in actions :: a.publication.marker.fingerprint
  }

  /** What the replay loop has established about the actions it has passed. */
  ghost predicate Passed(h: Hashes, snapshot: Snapshot, actions: seq<Action>) {
    actions == [] ||
    (var a, before := actions[|actions| - 1], actions[..|actions| - 1];
     && Passed(h, snapshot, before)
     && ValidAction(h, snapshot, a)
     && (before != [] ==> Before(before[|before| - 1].publication, a.publication))
     && (before != [] ==> !before[|before| - 1].publication.target.Summary?)
     && a.publication.marker.fingerprint !in FingerprintsOf(before))
  }

  /** Behind actions that passed, the loop panics at an action in the right order whose body is too
      long once marked. */
  ghost predicate PanicsNext(h: Hashes, snapshot: Snapshot, before: seq<Action>, a: Action) {
    && Passed(h, snapshot, before)
    && (before != [] ==>
          var last := before[|before| - 1].publication; Before(last, a.publication) && !last.target.Summary?)
    && Oversized(h, snapshot, a.publication.target, a.publication.body)
  }

  ghost predicate ReplayPanicsAt(h: Hashes, snapshot: Snapshot, actions: seq<Action>, i: nat) {
    i < |actions| && PanicsNext(h, snapshot, actions[..i], actions[i])
  }

  /** When `validate_replay` of a plan panics. */
  ghost predicate ReplayPanics(h: Hashes, p: Plan) {
    && p.schema == PLAN_SCHEMA && p.bot != 0 && |p.actions| <= MAX_CANDIDATES
    && exists i: nat :: ReplayPanicsAt(h, p.snapshot, p.actions, i)
  }

  lemma {:induction false} PassedMeansValid(h: Hashes, snapshot: Snapshot, actions: seq<Action>)
    requires Passed(h, snapshot, actions)
    ensures forall a :: a in actions ==> ValidAction(h, snapshot, a)
    ensures ValidOrder(actions)
  {
    if actions != [] {
      var n := |actions| - 1;
      PassedMeansValid(h, snapshot, actions[..n]);
      assert actions == actions[..n] + [actions[n]];
      ValidOrderSnoc(actions[..n], actions[n]);
    }
  }

  lemma ValidOrderSnoc(actions: seq<Action>, a: Action)
    requires ValidOrder(actions)
    requires actions != [] ==> Before(actions[|actions| - 1].publication, a.publication)
    requires actions != [] ==> !actions[|actions| - 1].publication.target.Summary?
    requires a.publication.marker.fingerprint !in FingerprintsOf(actions)
    ensures ValidOrder(actions + [a])
  {
    var all := actions + [a];
    var n := |actions|;
    BeforeOrder();
    forall i, j | 0 <= i < j < |all|
      ensures Before(all[i].publication, all[j].publication)
      ensures all[i].publication.marker.fingerprint != all[j].publication.marker.fingerprint
    {
      assert all[i] == actions[i];
      if j == n {
        assert actions[i] in actions;
        if i < n - 1 {
          assert Before(actions[i].publication, actions[n - 1].publication);
        }
      }
    }
  }

  lemma {:induction false} ValidMeansPassed(h: Hashes, snapshot: Snapshot, actions: seq<Action>)
    requires forall a :: a in actions ==> ValidAction(h, snapshot, a)
    requires ValidOrder(actions)
    ensures Passed(h, snapshot, actions)
  {
    if actions != [] {
      var n := |actions| - 1;
      var before := actions[..n];
      assert forall i :: 0 <= i < n ==> before[i] == actions[i];
      ValidMeansPassed(h, snapshot, before);
      forall a | a in before ensures a.publication.marker.fingerprint != actions[n].publication.marker.fingerprint {
        var j :| 0 <= j < n && actions[j] == a;
      }
    }
  }

  lemma {:induction false} PassedPrefix(h: Hashes, snapshot: Snapshot, actions: seq<Action>, k: nat)
    requires Passed(h, snapshot, actions) && k <= |actions|
    ensures Passed(h, snapshot, actions[..k])
  {
    var n := |actions| - 1;
    if k == |actions| {
      assert actions[..k] == actions;
    } else {
      PassedPrefix(h, snapshot, actions[..n], k);
      assert actions[..n][..k] == actions[..k];
    }
  }

  lemma FingerprintsSnoc(actions: seq<Action>, a: Action)
    ensures FingerprintsOf(actions + [a]) == FingerprintsOf(actions) + {a.publication.marker.fingerprint}
  {
    forall b ensures b in actions + [a] <==> b in actions || b == a { }
  }

  /** Behind actions that passed, an action fails with `e`. */
  ghost predicate RefusesNext(h: Hashes, snapshot: Snapshot, before: seq<Action>, a: Action, e: ReplayError) {
    var previous := if before == [] then None else Some(before[|before| - 1].publication);
    && Passed(h, snapshot, before)
    && ActionRefused(h, snapshot, a, previous, previous.Some? && previous.value.target.Summary?, FingerprintsOf(before), e)
  }

  ghost predicate ActionsRefused(h: Hashes, snapshot: Snapshot, actions: seq<Action>, e: ReplayError) {
    exists i :: 0 <= i < |actions| && RefusesNext(h, snapshot, actions[..i], actions[i], e)
  }

  /** Why the replay of a plan fails. */
  ghost predicate ReplayRefused(h: Hashes, p: Plan, e: ReplayError) {
    if p.schema != "revoot.publication-plan/v1" then e == SchemaVersion
    else if p.bot == 0 then e == BotIdentity
    else if |p.actions| > 1000 then e == ActionCount
    else if Passed(h, p.snapshot, p.actions) then e == PlanDigest && p.digest != h.plan(p.schema, p.snapshot, p.bot, p.actions)
    else ActionsRefused(h, p.snapshot, p.actions, e)
  }

  /** One round of the replay loop. */
  method ReplayAction(h: Hashes, snapshot: Snapshot, ghost before: seq<Action>, previous: Option<Prepared>, a: Action, fingerprints: set<Digest>)
    returns (r: Attempt<(), ReplayError>)
    requires Passed(h, snapshot, before)
    requires previous == if before == [] then None else Some(before[|before| - 1].publication)
    requires fingerprints == FingerprintsOf(before)
    ensures r.Done? <==> Passed(h, snapshot, before + [a])
    ensures r.Done? ==> fingerprints + {a.publication.marker.fingerprint} == FingerprintsOf(before + [a])
    ensures r.Panicked? <==> PanicsNext(h, snapshot, before, a)
    ensures r.Rejected? ==> RefusesNext(h, snapshot, before, a, r.error)
  {
    var sawSummary := previous.Some? && previous.value.target.Summary?;
    r := ValidateAction(h, snapshot, a, previous, sawSummary, fingerprints);
    assert (before + [a])[..|before|] == before && (before + [a])[|before|] == a;
    FingerprintsSnoc(before, a);
  }

  /** A longer prefix passes only if a shorter one does. */
  lemma {:induction false} ShorterPassed(h: Hashes, snapshot: Snapshot, actions: seq<Action>, i: nat, j: nat)
    requires i <= j <= |actions| && Passed(h, snapshot, actions[..j])
    ensures Passed(h, snapshot, actions[..i])
  {
    PassedPrefix(h, snapshot, actions[..j], i);
    assert actions[..j][..i] == actions[..i];
  }

  lemma {:induction false} PanickedDidNotPass(h: Hashes, snapshot: Snapshot, actions: seq<Action>, j: nat)
    requires ReplayPanicsAt(h, snapshot, actions, j)
    ensures !Passed(h, snapshot, actions[..j + 1])
  {
    assert actions[..j + 1][j] == actions[j];
  }

  /** Where the loop stops, it stops for good: no other action makes it panic. */
  lemma {:induction false} PanicsOnce(h: Hashes, snapshot: Snapshot, actions: seq<Action>, i: nat, j: nat)
    requires i < |actions| && Passed(h, snapshot, actions[..i]) && !Passed(h, snapshot, actions[..i + 1])
    requires ReplayPanicsAt(h, snapshot, actions, j)
    ensures j == i
  {
    if j > i {
      ShorterPassed(h, snapshot, actions, i + 1, j);
    } else if j < i {
      PanickedDidNotPass(h, snapshot, actions, j);
      ShorterPassed(h, snapshot, actions, j + 1, i);
    }
  }

  lemma {:induction false} ReplayStopsOnce(h: Hashes, snapshot: Snapshot, actions: seq<Action>, i: nat)
    requires i < |actions| && Passed(h, snapshot, actions[..i]) && !Passed(h, snapshot, actions[..i + 1])
    ensures !Passed(h, snapshot, actions)
    ensures (exists j: nat :: ReplayPanicsAt(h, snapshot, actions, j)) <==> ReplayPanicsAt(h, snapshot, actions, i)
  {
    if Passed(h, snapshot, actions) {
      PassedPrefix(h, snapshot, actions, i + 1);
    }
    if j: nat :| ReplayPanicsAt(h, snapshot, actions, j) {
      PanicsOnce(h, snapshot, actions, i, j);
    }
  }

  lemma {:induction false} PassedNeverPanics(h: Hashes, snapshot: Snapshot, actions: seq<Action>)
    requires Passed(h, snapshot, actions)
    ensures forall j: nat :: !ReplayPanicsAt(h, snapshot, actions, j)
  {
    forall j: nat ensures !ReplayPanicsAt(h, snapshot, actions, j) {
      if ReplayPanicsAt(h, snapshot, actions, j) {
        PanickedDidNotPass(h, snapshot, actions, j);
        PassedPrefix(h, snapshot, actions, j + 1);
      }
    }
  }

  /** The replay loop. */
  method ReplayActions(h: Hashes, snapshot: Snapshot, actions: seq<Action>) returns (r: Attempt<(), ReplayError>)
    ensures r.Done? <==> Passed(h, snapshot, actions)
    ensures r.Panicked? <==> exists i: nat :: ReplayPanicsAt(h, snapshot, actions, i)
    ensures r.Rejected? ==> ActionsRefused(h, snapshot, actions, r.error)
  {
    var fingerprints: set<Digest> := {};
    for i := 0 to |actions|
      invariant Passed(h, snapshot, actions[..i])
      invariant fingerprints == FingerprintsOf(actions[..i])
    {
      assert actions[..i + 1] == actions[..i] + [actions[i]];
      r := ReplayAction(
        h, snapshot, actions[..i], if i == 0 then None else Some(actions[i - 1].publication), actions[i], fingerprints);
      if !r.Done? {
        ReplayStopsOnce(h, snapshot, actions, i);
        return;
      }
      fingerprints := fingerprints + {actions[i].publication.marker.fingerprint};
    }
    assert actions[..|actions|] == actions;
    PassedNeverPanics(h, snapshot, actions);
    r := Done(());
  }

  lemma {:induction false} PassedExactly(h: Hashes, snapshot: Snapshot, actions: seq<Action>)
    ensures Passed(h, snapshot, actions) <==> (forall a :: a in actions ==> ValidAction(h, snapshot, a)) && ValidOrder(actions)
  {
    if Passed(h, snapshot, actions) {
      PassedMeansValid(h, snapshot, actions);
    } else if (forall a :: a in actions ==> ValidAction(h, snapshot, a)) && ValidOrder(actions) {
      ValidMeansPassed(h, snapshot, actions);
    }
  }

  /** `PublicationPlan::validate_replay` accepts exactly the valid plans, and panics exactly when the
      first action that stops the loop is in order but has a body that is too long once marked. */
  method ValidateReplay(h: Hashes, p: Plan) returns (r: Attempt<(), ReplayError>)
    ensures r.Done? <==> ValidPlan(h, p)
    ensures r.Panicked? <==> ReplayPanics(h, p)
    ensures r.Rejected? ==> ReplayRefused(h, p, r.error)
  {
    if p.schema != PLAN_SCHEMA {
      return Rejected(SchemaVersion);
    }
    if p.bot == 0 {
      return Rejected(BotIdentity);
    }
    if |p.actions| > MAX_CANDIDATES {
      return Rejected(ActionCount);
    }
    PassedExactly(h, p.snapshot, p.actions);
    r := ReplayActions(h, p.snapshot, p.actions);
    if r.Done? && h.plan(p.schema, p.snapshot, p.bot, p.actions) != p.digest {
      return Rejected(PlanDigest);
    }
  }

  // ----- properties of planning

  lemma {:induction false} SummariesSeparate(ps: seq<Prepared>, i: nat, j: nat)
    requires |Filter(IsSummary(), ps)| <= 1
    requires i < j < |ps|
    ensures !(ps[i].target.Summary? && ps[j].target.Summary?)
  {
    if i == 0 {
      FilterMember(IsSummary(), ps[1..], ps[j]);
      assert ps[1..][j - 1] == ps[j];
    } else {
      SummariesSeparate(ps[1..], i - 1, j - 1);
    }
  }

  lemma PreparedAreUntied(ps: seq<Prepared>)
    requires DistinctFingerprints(ps)
    ensures Untied(Before, ps) && Distinct(ps)
  {
    BeforeOrder();
    forall x, y | x in ps && y in ps && x != y ensures Before(x, y) || Before(y, x) {
      var i :| 0 <= i < |ps| && ps[i] == x;
      var j :| 0 <= j < |ps| && ps[j] == y;
      assert x.marker.fingerprint != y.marker.fingerprint;
    }
  }

  lemma {:induction false} SortedPreparations(ps: seq<Prepared>)
    requires DistinctFingerprints(ps) && |Filter(IsSummary(), ps)| <= 1
    ensures var s := SortBy(Before, ps);
      && StrictlySorted(Before, s)
      && DistinctFingerprints(s)
      && (forall i :: 0 <= i < |s| - 1 ==> !s[i].target.Summary?)
  {
    PreparedAreUntied(ps);
    BeforeOrder();
    SortByStrict(Before, ps);
    var s := SortBy(Before, ps);
    FilterPermutation(IsSummary(), ps, s);
    SameElements(ps, s);
    forall i, j | 0 <= i < j < |s| ensures s[i].marker.fingerprint != s[j].marker.fingerprint {
      assert s[i] in ps && s[j] in ps && Before(s[i], s[j]) && !Before(s[i], s[i]);
      var x :| 0 <= x < |ps| && ps[x] == s[i];
      var y :| 0 <= y < |ps| && ps[y] == s[j];
      assert x != y;
    }
    forall i | 0 <= i < |s| - 1 ensures !s[i].target.Summary? {
      SummariesSeparate(s, i, i + 1);
      assert Before(s[i], s[i + 1]);
    }
  }

  lemma BuiltActionsValid(h: Hashes, snapshot: Snapshot, bot: nat, candidates: seq<Candidate>, inventory: Inventory, p: Prepared)
    requires Plannable(h, snapshot, bot, candidates, inventory)
    requires p in Preparations(h, snapshot, candidates)
    ensures ValidAction(h, snapshot, ActionFor(h, bot, inventory.notes)(p))
  {
    var ps := Preparations(h, snapshot, candidates);
    var k :| 0 <= k < |ps| && ps[k] == p;
    assert candidates[k] in candidates;
    MatchesOwned(h, bot, inventory.notes, p);
    var matches := Matches(h, bot, inventory.notes, p);
    if matches != [] {
      assert matches[0] in matches;
    }
  }

  lemma OrderOfPublications(s: seq<Prepared>, actions: seq<Action>)
    requires StrictlySorted(Before, s) && DistinctFingerprints(s)
    requires forall i :: 0 <= i < |s| - 1 ==> !s[i].target.Summary?
    requires |actions| == |s| && forall i :: 0 <= i < |s| ==> actions[i].publication == s[i]
    ensures ValidOrder(actions)
  {
    forall i, j | 0 <= i < j < |actions|
      ensures Before(actions[i].publication, actions[j].publication)
      ensures actions[i].publication.marker.fingerprint != actions[j].publication.marker.fingerprint
    {
      assert Before(s[i], s[j]);
    }
  }

  lemma {:induction false} MappedActions(h: Hashes, snapshot: Snapshot, f: Prepared -> Action, s: seq<Prepared>)
    requires forall p :: p in s ==> f(p).publication == p && ValidAction(h, snapshot, f(p))
    requires StrictlySorted(Before, s) && DistinctFingerprints(s)
    requires forall i :: 0 <= i < |s| - 1 ==> !s[i].target.Summary?
    ensures forall a :: a in Map(f, s) ==> ValidAction(h, snapshot, a)
    ensures ValidOrder(Map(f, s))
  {
    var actions := Map(f, s);
    forall i | 0 <= i < |s| ensures actions[i].publication == s[i] && ValidAction(h, snapshot, actions[i]) {
      assert s[i] in s;
    }
    OrderOfPublications(s, actions);
  }

  lemma PreparationsSorted(h: Hashes, snapshot: Snapshot, candidates: seq<Candidate>) returns (s: seq<Prepared>)
    requires ValidCandidates(h, snapshot, candidates)
    ensures s == SortBy(Before, Preparations(h, snapshot, candidates))
    ensures StrictlySorted(Before, s) && DistinctFingerprints(s)
    ensures forall i :: 0 <= i < |s| - 1 ==> !s[i].target.Summary?
    ensures forall p :: p in s <==> p in Preparations(h, snapshot, candidates)
    ensures |s| == |candidates|
  {
    var ps := Preparations(h, snapshot, candidates);
    SortedPreparations(ps);
    s := SortBy(Before, ps);
    SameElements(ps, s);
  }

  /** Builder and checker agree: every plan the builder assembles replays. */
  lemma BuiltPlansReplay(h: Hashes, snapshot: Snapshot, bot: nat, candidates: seq<Candidate>, inventory: Inventory)
    requires Plannable(h, snapshot, bot, candidates, inventory)
    ensures ValidPlan(h, PlanFor(h, snapshot, bot, candidates, inventory.notes))
  {
    var s := PreparationsSorted(h, snapshot, candidates);
    var f := ActionFor(h, bot, inventory.notes);
    forall p | p in s ensures f(p).publication == p && ValidAction(h, snapshot, f(p)) {
      BuiltActionsValid(h, snapshot, bot, candidates, inventory, p);
    }
    MappedActions(h, snapshot, f, s);
  }

  lemma MatchesOwned(h: Hashes, bot: nat, notes: seq<Note>, p: Prepared)
    ensures forall n :: n in Matches(h, bot, notes, p) ==> n in notes && n.author == bot
  {
    forall n | n in Matches(h, bot, notes, p) ensures n in notes && n.author == bot {
      FilterMember(OwnedMark(bot, p.marker), notes, n);
      var lineage := LineageId(h.occurrence, h.legacy, p.body);
      if lineage.Some? {
        FilterMember(OwnedLineage(h, bot, lineage.value), notes, n);
      }
    }
  }

  // ----- the builder

  /** Candidates the preparation loop gets through. */
  ghost predicate CandidatesPass(h: Hashes, snapshot: Snapshot, candidates: seq<Candidate>) {
    && (forall c :: c in candidates ==> CandidateIssue(c.body).None? && Fits(PrepareWith(h, snapshot)(c)))
    && DistinctFingerprints(Preparations(h, snapshot, candidates))
  }

  lemma CandidatesPassSnoc(h: Hashes, snapshot: Snapshot, candidates: seq<Candidate>, i: nat)
    requires i < |candidates|
    ensures Preparations(h, snapshot, candidates[..i + 1])
         == Preparations(h, snapshot, candidates[..i]) + [PrepareWith(h, snapshot)(candidates[i])]
    ensures CandidatesPass(h, snapshot, candidates[..i + 1]) <==>
      && CandidatesPass(h, snapshot, candidates[..i])
      && CandidateIssue(candidates[i].body).None?
      && Fits(PrepareWith(h, snapshot)(candidates[i]))
      && forall p :: p in Preparations(h, snapshot, candidates[..i]) ==>
           p.marker.fingerprint != PrepareWith(h, snapshot)(candidates[i]).marker.fingerprint
  {
    var f := PrepareWith(h, snapshot);
    var c, before := candidates[i], candidates[..i];
    assert candidates[..i + 1] == before + [c];
    var ps := Map(f, before);
    var all := ps + [f(c)];
    assert Map(f, before + [c]) == all;
    assert forall x :: x in before + [c] <==> x in before || x == c;
    assert DistinctFingerprints(all) <==>
      DistinctFingerprints(ps) && forall p :: p in ps ==> p.marker.fingerprint != f(c).marker.fingerprint by {
      if DistinctFingerprints(all) {
        forall j | 0 <= j < |ps| ensures ps[j].marker.fingerprint != f(c).marker.fingerprint {
          assert all[j] == ps[j] && all[|ps|] == f(c);
        }
        assert forall j :: 0 <= j < |ps| ==> all[j] == ps[j];
      }
    }
  }

  lemma CandidatesPassPrefix(h: Hashes, snapshot: Snapshot, candidates: seq<Candidate>, i: nat)
    requires CandidatesPass(h, snapshot, candidates) && i <= |candidates|
    ensures CandidatesPass(h, snapshot, candidates[..i])
  {
    var f := PrepareWith(h, snapshot);
    assert Map(f, candidates[..i]) == Map(f, candidates)[..i];
    assert forall c :: c in candidates[..i] ==> c in candidates;
  }

  /** The first candidate that stops the loop is valid but too long once marked. */
  ghost predicate PanicsAt(h: Hashes, snapshot: Snapshot, candidates: seq<Candidate>, i: nat) {
    && i < |candidates|
    && CandidatesPass(h, snapshot, candidates[..i])
    && Oversized(h, snapshot, candidates[i].target, candidates[i].body)
  }

  /** So one candidate of plain letters can make planning panic. */
  lemma LongLettersPanic(h: Hashes, snapshot: Snapshot, target: Target, body: string)
    requires MAX_COMMENT_BYTES - 179 < |body| <= MAX_COMMENT_BYTES && forall c :: c in body ==> 'a' <= c <= 'z'
    ensures PanicsAt(h, snapshot, [Candidate(target, body)], 0)
  {
    OversizedLetters(h, snapshot, target, body);
    assert [Candidate(target, body)][..0] == [];
  }

  lemma PanicStops(h: Hashes, snapshot: Snapshot, candidates: seq<Candidate>, j: nat)
    requires PanicsAt(h, snapshot, candidates, j)
    ensures !CandidatesPass(h, snapshot, candidates[..j + 1])
  {
    CandidatesPassSnoc(h, snapshot, candidates, j);
  }

  /** A longer prefix passes only if a shorter one does. */
  lemma ShorterPasses(h: Hashes, snapshot: Snapshot, candidates: seq<Candidate>, i: nat, j: nat)
    requires i <= j <= |candidates| && CandidatesPass(h, snapshot, candidates[..j])
    ensures CandidatesPass(h, snapshot, candidates[..i])
  {
    CandidatesPassPrefix(h, snapshot, candidates[..j], i);
    assert candidates[..j][..i] == candidates[..i];
  }

  lemma StopsOnce(h: Hashes, snapshot: Snapshot, candidates: seq<Candidate>, i: nat)
    requires i < |candidates| && CandidatesPass(h, snapshot, candidates[..i])
    requires !CandidatesPass(h, snapshot, candidates[..i + 1])
    ensures !CandidatesPass(h, snapshot, candidates)
    ensures forall j: nat :: PanicsAt(h, snapshot, candidates, j) ==> j == i
  {
    if CandidatesPass(h, snapshot, candidates) {
      CandidatesPassPrefix(h, snapshot, candidates, i + 1);
    }
    forall j: nat | PanicsAt(h, snapshot, candidates, j) ensures j == i {
      if j > i {
        ShorterPasses(h, snapshot, candidates, i + 1, j);
      } else if j < i {
        PanicStops(h, snapshot, candidates, j);
        ShorterPasses(h, snapshot, candidates, j + 1, i);
      }
    }
  }

  /** The candidate that stops the loop, and why. */
  ghost predicate CandidateRefused(h: Hashes, snapshot: Snapshot, candidates: seq<Candidate>, i: nat, e: PlanError) {
    && i < |candidates| && CandidatesPass(h, snapshot, candidates[..i])
    && var p := PrepareWith(h, snapshot)(candidates[i]);
       match e
       case RejectedCandidate(issue) => CandidateIssue(p.body) == Some(issue)
       case RepeatedFingerprint =>
         CandidateIssue(p.body).None? && Fits(p)
         && exists q :: q in Preparations(h, snapshot, candidates[..i]) && q.marker.fingerprint == p.marker.fingerprint
       case _ => false
  }

  /** Why planning fails. */
  ghost predicate PlanRefused(h: Hashes, snapshot: Snapshot, bot: nat, candidates: seq<Candidate>, inventory: Inventory, e: PlanError) {
    if bot == 0 then e == PlanBotIdentity
    else if !inventory.complete then e == InventoryIncomplete
    else if |inventory.notes| > 100_000 then e == InventoryTooLarge
    else if !ValidInventory(inventory) then e == DuplicateNoteId
    else if |candidates| > 1000 then e == CandidateCount
    else if !CandidatesPass(h, snapshot, candidates) then exists i: nat :: CandidateRefused(h, snapshot, candidates, i, e)
    else if !ValidCandidates(h, snapshot, candidates) then e == MultipleSummaries
    else e == AmbiguousOwnedMatch
  }

  method PrepareAll(h: Hashes, snapshot: Snapshot, candidates: seq<Candidate>) returns (r: Attempt<seq<Prepared>, PlanError>)
    ensures r.Done? <==> CandidatesPass(h, snapshot, candidates)
    ensures r.Done? ==> r.value == Preparations(h, snapshot, candidates)
    ensures r.Panicked? <==> exists i: nat :: PanicsAt(h, snapshot, candidates, i)
    ensures r.Rejected? ==> exists i: nat :: CandidateRefused(h, snapshot, candidates, i, r.error)
  {
    var prepared: seq<Prepared> := [];
    for i := 0 to |candidates|
      invariant prepared == Preparations(h, snapshot, candidates[..i])
      invariant CandidatesPass(h, snapshot, candidates[..i])
    {
      var c := candidates[i];
      CandidatesPassSnoc(h, snapshot, candidates, i);
      var issue := CandidateIssue(c.body);
      if issue.Some? {
        StopsOnce(h, snapshot, candidates, i);
        assert CandidateRefused(h, snapshot, candidates, i, RejectedCandidate(issue.value));
        return Rejected(RejectedCandidate(issue.value));
      }
      var p := PrepareOrPanic(h, snapshot, c);
      if p.None? {
        StopsOnce(h, snapshot, candidates, i);
        assert PanicsAt(h, snapshot, candidates, i);
        return Panicked;
      }
      if exists q :: q in prepared && q.marker.fingerprint == p.value.marker.fingerprint {
        StopsOnce(h, snapshot, candidates, i);
        assert CandidateRefused(h, snapshot, candidates, i, RepeatedFingerprint);
        return Rejected(RepeatedFingerprint);
      }
      prepared := prepared + [p.value];
    }
    assert candidates[..|candidates|] == candidates;
    forall j: nat | PanicsAt(h, snapshot, candidates, j) ensures false {
      PanicStops(h, snapshot, candidates, j);
      CandidatesPassPrefix(h, snapshot, candidates, j + 1);
    }
    return Done(prepared);
  }

  method DecideAll(h: Hashes, bot: nat, notes: seq<Note>, ps: seq<Prepared>) returns (r: Option<seq<Action>>)
    ensures r.Some? <==> Unambiguous(h, bot, notes, ps)
    ensures r.Some? ==> r.value == Map(ActionFor(h, bot, notes), ps)
  {
    var actions: seq<Action> := [];
    ghost var f := ActionFor(h, bot, notes);
    for i := 0 to |ps|
      invariant forall j :: 0 <= j < i ==> |Matches(h, bot, notes, ps[j])| <= 1
      invariant |actions| == i && forall j :: 0 <= j < i ==> actions[j] == f(ps[j])
    {
      var matches := Matches(h, bot, notes, ps[i]);
      if |matches| > 1 {
        assert ps[i] in ps;
        return None;
      }
      actions := actions + [Action(ps[i], Decide(matches))];
    }
    assert actions == Map(f, ps);
    return Some(actions);
  }

  /** `build_publication_plan`. It succeeds exactly on plannable input, with the plan of `PlanFor`,
      never fails its own replay, and panics exactly when the first candidate to stop the
      preparation loop is a valid body that is too long once marked. */
  method BuildPlan(h: Hashes, snapshot: Snapshot, bot: nat, candidates: seq<Candidate>, inventory: Inventory)
    returns (r: Attempt<Plan, PlanError>)
    ensures r.Done? <==> Plannable(h, snapshot, bot, candidates, inventory)
    ensures r.Done? ==> r.value == PlanFor(h, snapshot, bot, candidates, inventory.notes) && ValidPlan(h, r.value)
    ensures r.Panicked? <==>
      bot != 0 && ValidInventory(inventory) && |candidates| <= MAX_CANDIDATES
      && exists i: nat :: PanicsAt(h, snapshot, candidates, i)
    ensures r.Rejected? ==> PlanRefused(h, snapshot, bot, candidates, inventory, r.error)
  {
    if bot == 0 {
      return Rejected(PlanBotIdentity);
    }
    var issue := InventoryIssue(inventory);
    if issue.Some? {
      return Rejected(issue.value);
    }
    if |candidates| > MAX_CANDIDATES {
      return Rejected(CandidateCount);
    }
    var prepared := PrepareAll(h, snapshot, candidates);
    if !prepared.Done? {
      return if prepared.Panicked? then Panicked else Rejected(prepared.error);
    }
    if |Filter(IsSummary(), prepared.value)| > 1 {
      return Rejected(MultipleSummaries);
    }
    var sorted := SortBy(Before, prepared.value);
    ghost var s := PreparationsSorted(h, snapshot, candidates);
    var actions := DecideAll(h, bot, inventory.notes, sorted);
    if actions.None? {
      return Rejected(AmbiguousOwnedMatch);
    }
    var plan := Seal(h, snapshot, bot, actions.value);
    BuiltPlansReplay(h, snapshot, bot, candidates, inventory);
    var replay := ValidateReplay(h, plan);
    if !replay.Done? {
      assert false;  // where the source would return InternalReplay
    }
    return Done(plan);
  }

  // ----- order independence

  lemma LineageMatchesPermutation(h: Hashes, bot: nat, a: seq<Note>, b: seq<Note>, body: string)
    requires multiset(a) == multiset(b)
    ensures multiset(LineageMatches(h, bot, a, body)) == multiset(LineageMatches(h, bot, b, body))
  {
    var lineage := LineageId(h.occurrence, h.legacy, body);
    if lineage.Some? {
      FilterPermutation(OwnedLineage(h, bot, lineage.value), a, b);
    }
  }

  lemma ShortPermutation<T>(x: seq<T>, y: seq<T>)
    requires multiset(x) == multiset(y)
    ensures |x| == |y| && (|x| <= 1 ==> x == y)
  {
    SameElements(x, y);
    if |x| == 1 {
      assert x[0] in y;
    }
  }

  lemma MatchesPermutation(h: Hashes, bot: nat, a: seq<Note>, b: seq<Note>, p: Prepared)
    requires multiset(a) == multiset(b)
    ensures |Matches(h, bot, a, p)| == |Matches(h, bot, b, p)|
    ensures |Matches(h, bot, a, p)| <= 1 ==> Matches(h, bot, a, p) == Matches(h, bot, b, p)
  {
    FilterPermutation(OwnedMark(bot, p.marker), a, b);
    LineageMatchesPermutation(h, bot, a, b, p.body);
    ShortPermutation(ExactMatches(bot, a, p.marker), ExactMatches(bot, b, p.marker));
    ShortPermutation(LineageMatches(h, bot, a, p.body), LineageMatches(h, bot, b, p.body));
  }

  /** Reordering the candidates gives the same sorted publications. */
  lemma CandidatesPermuted(h: Hashes, snapshot: Snapshot, c1: seq<Candidate>, c2: seq<Candidate>)
    requires multiset(c1) == multiset(c2) && ValidCandidates(h, snapshot, c1)
    ensures ValidCandidates(h, snapshot, c2)
    ensures SortBy(Before, Preparations(h, snapshot, c1)) == SortBy(Before, Preparations(h, snapshot, c2))
    ensures forall p :: p in Preparations(h, snapshot, c1) <==> p in Preparations(h, snapshot, c2)
  {
    SameElements(c1, c2);
    var p1, p2 := Preparations(h, snapshot, c1), Preparations(h, snapshot, c2);
    MapPermutation(PrepareWith(h, snapshot), c1, c2);
    SameElements(p1, p2);
    FingerprintsPermuted(p1, p2);
    FilterPermutation(IsSummary(), p1, p2);
    PreparedAreUntied(p1);
    BeforeOrder();
    SortByPermutation(Before, p1, p2);
  }

  /** Reordering the inventory gives the same decisions. */
  lemma {:induction false} InventoryPermuted(h: Hashes, bot: nat, n1: seq<Note>, n2: seq<Note>, ps: seq<Prepared>)
    requires multiset(n1) == multiset(n2) && Unambiguous(h, bot, n1, ps)
    ensures Unambiguous(h, bot, n2, ps)
    ensures Map(ActionFor(h, bot, n1), ps) == Map(ActionFor(h, bot, n2), ps)
  {
    forall p | p in ps
      ensures |Matches(h, bot, n2, p)| <= 1
      ensures ActionFor(h, bot, n1)(p) == ActionFor(h, bot, n2)(p)
    {
      MatchesPermutation(h, bot, n1, n2, p);
    }
    forall i | 0 <= i < |ps| ensures Map(ActionFor(h, bot, n1), ps)[i] == Map(ActionFor(h, bot, n2), ps)[i] {
      assert ps[i] in ps;
    }
  }

  /** Planning does not depend on the order of the candidates or of the inventory. */
  lemma PlanningIgnoresOrder(h: Hashes, snapshot: Snapshot, bot: nat, c1: seq<Candidate>, c2: seq<Candidate>, i1: Inventory, i2: Inventory)
    requires multiset(c1) == multiset(c2)
    requires multiset(i1.notes) == multiset(i2.notes) && i1.complete == i2.complete
    requires Plannable(h, snapshot, bot, c1, i1)
    ensures Plannable(h, snapshot, bot, c2, i2)
    ensures PlanFor(h, snapshot, bot, c1, i1.notes) == PlanFor(h, snapshot, bot, c2, i2.notes)
  {
    SameElements(i1.notes, i2.notes);
    NoteIdsPermuted(i1.notes, i2.notes);
    CandidatesPermuted(h, snapshot, c1, c2);
    var s := SortBy(Before, Preparations(h, snapshot, c1));
    SameElements(Preparations(h, snapshot, c1), s);
    InventoryPermuted(h, bot, i1.notes, i2.notes, s);
  }

  lemma NoteIdsPermuted(a: seq<Note>, b: seq<Note>)
    requires multiset(a) == multiset(b) && UniqueNotes(a)
    ensures UniqueNotes(b)
  {
    assert Distinct(a);
    DistinctPermutation(a, b);
    SameElements(a, b);
    forall i, j | 0 <= i < j < |b| ensures b[i].noteId != b[j].noteId {
      assert b[i] in a && b[j] in a;
      var x :| 0 <= x < |a| && a[x] == b[i];
      var y :| 0 <= y < |a| && a[y] == b[j];
      assert x != y;
    }
  }

  lemma FingerprintsPermuted(a: seq<Prepared>, b: seq<Prepared>)
    requires multiset(a) == multiset(b) && DistinctFingerprints(a)
    ensures DistinctFingerprints(b)
  {
    PreparedAreUntied(a);
    DistinctPermutation(a, b);
    SameElements(a, b);
    forall i, j | 0 <= i < j < |b| ensures b[i].marker.fingerprint != b[j].marker.fingerprint {
      assert b[i] in a && b[j] in a;
      var x :| 0 <= x < |a| && a[x] == b[i];
      var y :| 0 <= y < |a| && a[y] == b[j];
      assert x != y;
    }
  }
}
