/** The recovery journal of one publication plan as a transition system on values
    (crates/revoot-core/src/publication.rs, lines 653-1018). */
module PublicationJournaling {
  import opened Wrappers
  import opened Digests
  import opened Markers
  import opened PublicationPlans
  import Sequences

  const JOURNAL_SCHEMA := "revoot.publication-journal/v1"

  datatype JournalState =
    | Ready(next: nat)
    | AwaitingOutcome(action: nat)
    | AmbiguousOutcome(action: nat)
    | Completed
    | StoppedStale(before: nat)
    | Failed(at: nat)
  {
    predicate Terminal() { Completed? || StoppedStale? || Failed? }
  }

  datatype EntryOutcome = Created(noteId: nat) | KeptNote(noteId: nat) | Reconciled(noteId: nat)

  datatype Entry = Entry(action: nat, fingerprint: Digest, outcome: EntryOutcome)

  datatype Journal = Journal(
    schema: string, planDigest: Digest, snapshot: Snapshot, bot: nat,
    actions: seq<Action>, state: JournalState, entries: seq<Entry>)

  datatype JournalError =
    | RetainedState | InvalidState | StaleSnapshot | Index | WrongNote | BadInventory | AmbiguousMatch

  datatype JournalReplayError = JournalSchema | JournalPlan(error: ReplayError) | EntryCount | EntryIndex | BadOutcome | BadState

  datatype Call =
    | BeginNext(observed: Snapshot)
    | Confirm(noteId: nat)
    | MarkAmbiguous
    | ReconcileAmbiguous(inventory: Inventory)
    | StopStale
    | Fail

  datatype Reply =
    | Begun(action: Action) | Accepted | RetryAuthorized | Recovered(noteId: nat)
    | Refused(error: JournalError) | Panics

  // ----- replay validation

  predicate OutcomeAllowed(decision: Decision, outcome: EntryOutcome) {
    match decision
    case Create => !outcome.KeptNote? && outcome.noteId != 0
    case NoOp(existing) => outcome == KeptNote(existing)
  }

  predicate EntryMatches(j: Journal, i: nat)
    requires i < |j.entries| && i < |j.actions|
  {
    && j.entries[i].action == i
    && j.entries[i].fingerprint == j.actions[i].publication.marker.fingerprint
    && OutcomeAllowed(j.actions[i].decision, j.entries[i].outcome)
  }

  /** Where the journal may stand after `|entries|` finished actions. */
  predicate StateMatches(j: Journal) {
    var done := |j.entries|;
    match j.state
    case Ready(next) => next == done < |j.actions|
    case AwaitingOutcome(action) => action == done < |j.actions|
    case AmbiguousOutcome(action) => action == done < |j.actions| && j.actions[action].decision.Create?
    case Completed => done == |j.actions|
    case StoppedStale(before) => before == done < |j.actions|
    case Failed(at) => at == done < |j.actions|
  }

  function PlanOf(j: Journal): Plan {
    Plan(PLAN_SCHEMA, j.snapshot, j.bot, j.actions, j.planDigest)
  }

  /** The journals `validate_replay` accepts: an intact plan, entries that match a prefix of its
      actions, and a state that stands right behind them. */
  ghost predicate ValidJournal(h: Hashes, j: Journal) {
    && j.schema == JOURNAL_SCHEMA
    && ValidPlan(h, PlanOf(j))
    && |j.entries| <= |j.actions|
    && (forall i :: 0 <= i < |j.entries| ==> EntryMatches(j, i))
    && StateMatches(j)
  }

  /** The first entry that does not match has another number or another fingerprint. */
  ghost predicate Misplaced(j: Journal, i: nat)
    requires i < |j.entries| <= |j.actions|
  {
    && (forall k :: 0 <= k < i ==> EntryMatches(j, k))
    && (j.entries[i].action != i || j.entries[i].fingerprint != j.actions[i].publication.marker.fingerprint)
  }

  /** It has an outcome that its decision does not allow. */
  ghost predicate Misreported(j: Journal, i: nat)
    requires i < |j.entries| <= |j.actions|
  {
    && (forall k :: 0 <= k < i ==> EntryMatches(j, k))
    && j.entries[i].action == i && j.entries[i].fingerprint == j.actions[i].publication.marker.fingerprint
    && !OutcomeAllowed(j.actions[i].decision, j.entries[i].outcome)
  }

  /** Why the replay of a journal fails. */
  ghost predicate JournalRefused(h: Hashes, j: Journal, e: JournalReplayError) {
    var entriesFit := |j.entries| <= |j.actions|;
    match e
    case JournalSchema => j.schema != "revoot.publication-journal/v1"
    case JournalPlan(error) => j.schema == JOURNAL_SCHEMA && ReplayRefused(h, PlanOf(j), error)
    case EntryCount => ValidPlan(h, PlanOf(j)) && |j.entries| > |j.actions|
    case EntryIndex => ValidPlan(h, PlanOf(j)) && entriesFit && exists i :: 0 <= i < |j.entries| && Misplaced(j, i)
    case BadOutcome => ValidPlan(h, PlanOf(j)) && entriesFit && exists i :: 0 <= i < |j.entries| && Misreported(j, i)
    case BadState =>
      ValidPlan(h, PlanOf(j)) && entriesFit && (forall i :: 0 <= i < |j.entries| ==> EntryMatches(j, i)) && !StateMatches(j)
  }

  /** When `validate_replay` of a journal panics: its plan does. */
  ghost predicate JournalPanics(h: Hashes, j: Journal) {
    j.schema == JOURNAL_SCHEMA && ReplayPanics(h, PlanOf(j))
  }

  // ----- transitions

  function NewJournal(p: Plan): Journal {
    Journal(JOURNAL_SCHEMA, p.digest, p.snapshot, p.bot, p.actions,
            if p.actions == [] then Completed else Ready(0), [])
  }

  /** `fail_current`: terminal states are left alone. */
  function FailCurrent(j: Journal): Journal {
    match j.state
    case Ready(action) => j.(state := Failed(action))
    case AwaitingOutcome(action) => j.(state := Failed(action))
    case AmbiguousOutcome(action) => j.(state := Failed(action))
    case _ => j
  }

  /** `complete_current`. */
  function CompleteCurrent(j: Journal, action: nat, outcome: EntryOutcome): Journal
    requires action < |j.actions|
  {
    j.(entries := j.entries + [Entry(action, j.actions[action].publication.marker.fingerprint, outcome)],
       state := if action + 1 == |j.actions| then Completed else Ready(action + 1))
  }

  /** One public call on a journal that passes its own replay validation. */
  function Step(j: Journal, call: Call): (Journal, Reply)
    requires StateMatches(j)
  {
    match call
    case BeginNext(observed) =>
      if !j.state.Ready? then (j, Refused(InvalidState))
      else if observed != j.snapshot then (j.(state := StoppedStale(j.state.next)), Refused(StaleSnapshot))
      else (j.(state := AwaitingOutcome(j.state.next)), Begun(j.actions[j.state.next]))
    case Confirm(noteId) =>
      if noteId == 0 then (FailCurrent(j), Refused(WrongNote))
      else if !j.state.AwaitingOutcome? then (j, Refused(InvalidState))
      else
        var action := j.state.action;
        (match j.actions[action].decision
         case Create => (CompleteCurrent(j, action, Created(noteId)), Accepted)
         case NoOp(existing) =>
           if existing == noteId then (CompleteCurrent(j, action, KeptNote(noteId)), Accepted)
           else (FailCurrent(j), Refused(WrongNote)))
    case MarkAmbiguous =>
      if !j.state.AwaitingOutcome? then (j, Refused(InvalidState))
      else if !j.actions[j.state.action].decision.Create? then (FailCurrent(j), Refused(InvalidState))
      else (j.(state := AmbiguousOutcome(j.state.action)), Accepted)
    case ReconcileAmbiguous(inventory) =>
      if !j.state.AmbiguousOutcome? then (j, Refused(InvalidState))
      else if InventoryIssue(inventory).Some? then (j, Refused(BadInventory))
      else
        var action := j.state.action;
        var matches := ExactMatches(j.bot, inventory.notes, j.actions[action].publication.marker);
        if |matches| == 0 then (j.(state := Ready(action)), RetryAuthorized)
        else if |matches| == 1 then
          (CompleteCurrent(j, action, Reconciled(matches[0].noteId)), Recovered(matches[0].noteId))
        else (FailCurrent(j), Refused(AmbiguousMatch))
    case StopStale =>
      if !j.state.Ready? then (j, Refused(InvalidState))
      else (j.(state := StoppedStale(j.state.next)), Accepted)
    case Fail =>
      if j.state.Terminal() then (j, Refused(InvalidState)) else (FailCurrent(j), Accepted)
  }

  lemma NewJournalValid(h: Hashes, p: Plan)
    requires ValidPlan(h, p)
    ensures ValidJournal(h, NewJournal(p)) && PlanOf(NewJournal(p)) == p && NewJournal(p).entries == []
  {
    assert PlanOf(NewJournal(p)) == p;
  }

  lemma CompletionValid(h: Hashes, j: Journal, outcome: EntryOutcome)
    requires ValidJournal(h, j) && |j.entries| < |j.actions|
    requires OutcomeAllowed(j.actions[|j.entries|].decision, outcome)
    ensures ValidJournal(h, CompleteCurrent(j, |j.entries|, outcome))
  {
    var k := CompleteCurrent(j, |j.entries|, outcome);
    assert PlanOf(k) == PlanOf(j);
    forall i | 0 <= i < |k.entries| ensures EntryMatches(k, i) {
      if i < |j.entries| {
        assert EntryMatches(j, i);
      }
    }
  }

  lemma StateChangeValid(h: Hashes, j: Journal, state: JournalState)
    requires ValidJournal(h, j) && StateMatches(j.(state := state))
    ensures ValidJournal(h, j.(state := state))
  {
    var k := j.(state := state);
    assert PlanOf(k) == PlanOf(j);
    forall i | 0 <= i < |k.entries| ensures EntryMatches(k, i) {
      assert EntryMatches(j, i);
    }
  }

  lemma MatchedNoteIsValid(bot: nat, inventory: Inventory, marker: PublicationMarker, n: Note)
    requires ValidInventory(inventory) && n in ExactMatches(bot, inventory.notes, marker)
    ensures n.noteId != 0 && n in inventory.notes && n.author == bot && TerminalMarker(n.body) == Some(marker)
  {
    Sequences.FilterMember(OwnedMark(bot, marker), inventory.notes, n);
  }

  /** Every call keeps a journal valid, only appends entries, never touches the plan, and leaves the
      three terminal states as they are. */
  lemma StepSound(h: Hashes, j: Journal, call: Call)
    requires ValidJournal(h, j)
    ensures var (k, reply) := Step(j, call);
      && ValidJournal(h, k)
      && PlanOf(k) == PlanOf(j)
      && j.entries <= k.entries && |k.entries| <= |j.entries| + 1
      && (j.state.Terminal() ==> k == j && reply.Refused?)
      && reply != Refused(RetainedState) && reply != Panics
  {
    var (k, reply) := Step(j, call);
    if k.entries == j.entries {
      assert k == j.(state := k.state);
      StateChangeValid(h, j, k.state);
    } else {
      var outcome := k.entries[|j.entries|].outcome;
      if call.ReconcileAmbiguous? {
        var matches := ExactMatches(j.bot, call.inventory.notes, j.actions[j.state.action].publication.marker);
        assert matches[0] in matches;
        MatchedNoteIsValid(j.bot, call.inventory, j.actions[j.state.action].publication.marker, matches[0]);
      }
      CompletionValid(h, j, outcome);
    }
  }

  // ----- what each reply means

  /** Only the state has changed. */
  predicate Stands(j: Journal, k: Journal, state: JournalState) {
    k == j.(state := state)
  }

  /** The outcome of the first unfinished action is recorded, and the journal moves behind it. */
  predicate Recorded(j: Journal, k: Journal, outcome: EntryOutcome) {
    var n := |j.entries|;
    && n < |j.actions|
    && k.entries == j.entries + [Entry(n, j.actions[n].publication.marker.fingerprint, outcome)]
    && k.state == (if n + 1 < |j.actions| then Ready(n + 1) else Completed)
    && (k.schema, k.planDigest, k.snapshot, k.bot, k.actions) == (j.schema, j.planDigest, j.snapshot, j.bot, j.actions)
  }

  /** A live journal fails at its first unfinished action; a finished one stays as it is. */
  predicate GivenUp(j: Journal, k: Journal) {
    if j.state.Completed? || j.state.StoppedStale? || j.state.Failed? then k == j else Stands(j, k, Failed(|j.entries|))
  }

  /** The note is the bot's and ends in the marker of the first unfinished action. */
  predicate Carries(j: Journal, n: Note)
    requires |j.entries| < |j.actions|
  {
    n.author == j.bot && TerminalMarker(n.body) == Some(j.actions[|j.entries|].publication.marker)
  }

  ghost predicate BegunRightly(j: Journal, observed: Snapshot, k: Journal, reply: Reply) {
    var n := |j.entries|;
    match reply
    case Begun(action) =>
      observed == j.snapshot && j.state == Ready(n) && n < |j.actions| && action == j.actions[n] && Stands(j, k, AwaitingOutcome(n))
    case Refused(StaleSnapshot) => observed != j.snapshot && j.state == Ready(n) && Stands(j, k, StoppedStale(n))
    case Refused(InvalidState) => !j.state.Ready? && k == j
    case _ => false
  }

  ghost predicate ConfirmedRightly(j: Journal, noteId: nat, k: Journal, reply: Reply) {
    var n := |j.entries|;
    var working := n < |j.actions| && j.state == AwaitingOutcome(n);
    match reply
    case Accepted =>
      working && noteId != 0 &&
      (match j.actions[n].decision
       case Create => Recorded(j, k, Created(noteId))
       case NoOp(existing) => noteId == existing && Recorded(j, k, KeptNote(existing)))
    case Refused(WrongNote) =>
      (noteId == 0 || (working && j.actions[n].decision.NoOp? && j.actions[n].decision.existing != noteId)) && GivenUp(j, k)
    case Refused(InvalidState) => !working && noteId != 0 && k == j
    case _ => false
  }

  ghost predicate MarkedRightly(j: Journal, k: Journal, reply: Reply) {
    var n := |j.entries|;
    var working := n < |j.actions| && j.state == AwaitingOutcome(n);
    match reply
    case Accepted => working && j.actions[n].decision.Create? && Stands(j, k, AmbiguousOutcome(n))
    case Refused(InvalidState) => if working then j.actions[n].decision.NoOp? && Stands(j, k, Failed(n)) else k == j
    case _ => false
  }

  ghost predicate ReconciledRightly(j: Journal, inventory: Inventory, k: Journal, reply: Reply) {
    var n := |j.entries|;
    if !(n < |j.actions| && j.state == AmbiguousOutcome(n)) then reply == Refused(InvalidState) && k == j
    else if !ValidInventory(inventory) then reply == Refused(BadInventory) && k == j
    else
      match reply
      case RetryAuthorized => (forall m :: m in inventory.notes ==> !Carries(j, m)) && Stands(j, k, Ready(n))
      case Recovered(noteId) =>
        && (exists m :: m in inventory.notes && Carries(j, m) && m.noteId == noteId)
        && (forall m :: m in inventory.notes && Carries(j, m) ==> m.noteId == noteId)
        && Recorded(j, k, Reconciled(noteId))
      case Refused(AmbiguousMatch) =>
        && (exists l, m :: l in inventory.notes && m in inventory.notes && l.noteId != m.noteId && Carries(j, l) && Carries(j, m))
        && Stands(j, k, Failed(n))
      case _ => false
  }

  ghost predicate StoppedRightly(j: Journal, k: Journal, reply: Reply) {
    match reply
    case Accepted => j.state == Ready(|j.entries|) && Stands(j, k, StoppedStale(|j.entries|))
    case Refused(InvalidState) => !j.state.Ready? && k == j
    case _ => false
  }

  ghost predicate FailedRightly(j: Journal, k: Journal, reply: Reply) {
    var over := j.state.Completed? || j.state.StoppedStale? || j.state.Failed?;
    match reply
    case Accepted => !over && Stands(j, k, Failed(|j.entries|))
    case Refused(InvalidState) => over && k == j
    case _ => false
  }

  /** Every reply, with what it says about the journal before the call and with the journal behind it.
      For each call the replies exclude each other, so this decides the reply and the new journal. */
  ghost predicate Lawful(j: Journal, call: Call, k: Journal, reply: Reply) {
    match call
    case BeginNext(observed) => BegunRightly(j, observed, k, reply)
    case Confirm(noteId) => ConfirmedRightly(j, noteId, k, reply)
    case MarkAmbiguous => MarkedRightly(j, k, reply)
    case ReconcileAmbiguous(inventory) => ReconciledRightly(j, inventory, k, reply)
    case StopStale => StoppedRightly(j, k, reply)
    case Fail => FailedRightly(j, k, reply)
  }

  lemma CarriersAreMatches(j: Journal, notes: seq<Note>)
    requires |j.entries| < |j.actions|
    ensures forall m :: m in ExactMatches(j.bot, notes, j.actions[|j.entries|].publication.marker) <==> m in notes && Carries(j, m)
  {
    var owned := OwnedMark(j.bot, j.actions[|j.entries|].publication.marker);
    forall m ensures m in Sequences.Filter(owned, notes) <==> m in notes && Carries(j, m) {
      Sequences.FilterMember(owned, notes, m);
    }
  }

  /** Notes of a valid inventory that match twice have different identities. */
  lemma {:induction false} FilterKeepsIds(p: Note -> bool, notes: seq<Note>)
    requires UniqueNotes(notes)
    ensures UniqueNotes(Sequences.Filter(p, notes))
  {
    if notes != [] {
      FilterKeepsIds(p, notes[1..]);
      var rest := Sequences.Filter(p, notes[1..]);
      forall m | m in rest ensures m.noteId != notes[0].noteId {
        Sequences.FilterMember(p, notes[1..], m);
        var i :| 0 <= i < |notes[1..]| && notes[1..][i] == m;
        assert notes[i + 1] == m;
      }
    }
  }

  lemma ReconcileIsRight(j: Journal, inventory: Inventory)
    requires StateMatches(j)
    ensures var (k, reply) := Step(j, ReconcileAmbiguous(inventory)); ReconciledRightly(j, inventory, k, reply)
  {
    if j.state.AmbiguousOutcome? && ValidInventory(inventory) {
      var matches := ExactMatches(j.bot, inventory.notes, j.actions[|j.entries|].publication.marker);
      CarriersAreMatches(j, inventory.notes);
      FilterKeepsIds(OwnedMark(j.bot, j.actions[|j.entries|].publication.marker), inventory.notes);
      if |matches| > 1 {
        assert matches[0] in matches && matches[1] in matches && matches[0].noteId != matches[1].noteId;
      } else if |matches| == 1 {
        assert matches[0] in matches;
      }
    }
  }

  /** Every call is answered lawfully. */
  lemma StepIsLawful(j: Journal, call: Call)
    requires StateMatches(j)
    ensures var (k, reply) := Step(j, call); Lawful(j, call, k, reply)
  {
    if call.ReconcileAmbiguous? {
      ReconcileIsRight(j, call.inventory);
    }
  }

  /** The law leaves one answer: two lawful answers to one call are the same, down to the note that a
      reconciliation finds. */
  lemma LawDecides(j: Journal, call: Call, k: Journal, reply: Reply, k': Journal, reply': Reply)
    requires StateMatches(j) && Lawful(j, call, k, reply) && Lawful(j, call, k', reply')
    ensures k == k' && reply == reply'
  {
  }

  function StepAll(j: Journal, calls: seq<Call>): Journal
    decreases |calls|
  {
    if calls == [] || !StateMatches(j) then j else StepAll(Step(j, calls[0]).0, calls[1..])
  }

  /** Journal closure: every state reachable through the public calls passes replay validation. */
  lemma {:induction false} JournalsStayValid(h: Hashes, j: Journal, calls: seq<Call>)
    requires ValidJournal(h, j)
    ensures var k := StepAll(j, calls);
      && ValidJournal(h, k)
      && PlanOf(k) == PlanOf(j)
      && j.entries <= k.entries
      && (j.state.Terminal() ==> k == j)
    decreases |calls|
  {
    if calls != [] {
      StepSound(h, j, calls[0]);
      JournalsStayValid(h, Step(j, calls[0]).0, calls[1..]);
    }
  }
}

/** The mutable journal object (crates/revoot-core/src/publication.rs, lines 683-1018). */
module PublicationJournals {
  import opened Wrappers
  import opened Digests
  import opened Markers
  import opened PublicationPlans
  import opened PublicationJournaling

  class PublicationJournal {
    var schema: string
    var planDigest: Digest
    var snapshot: Snapshot
    var bot: nat
    var actions: seq<Action>
    var state: JournalState
    var entries: seq<Entry>

    function Current(): Journal
      reads this
    {
      Journal(schema, planDigest, snapshot, bot, actions, state, entries)
    }

    /** Restore a journal exactly as it was stored. */
    constructor Restore(j: Journal)
      ensures Current() == j
    {
      schema, planDigest, snapshot, bot := j.schema, j.planDigest, j.snapshot, j.bot;
      actions, state, entries := j.actions, j.state, j.entries;
    }

    /** `try_new`: a journal only for an intact plan. */
    static method TryNew(h: Hashes, plan: Plan) returns (r: Attempt<PublicationJournal, ReplayError>)
      ensures r.Done? <==> ValidPlan(h, plan)
      ensures r.Panicked? <==> ReplayPanics(h, plan)
      ensures r.Rejected? ==> ReplayRefused(h, plan, r.error)
      ensures r.Done? ==> fresh(r.value) && r.value.Current() == NewJournal(plan) && ValidJournal(h, r.value.Current())
    {
      var replay := PublicationPlans.ValidateReplay(h, plan);
      if !replay.Done? {
        return if replay.Panicked? then Panicked else Rejected(replay.error);
      }
      NewJournalValid(h, plan);
      var j := new PublicationJournal.Restore(NewJournal(plan));
      return Done(j);
    }

    /** `validate_replay` accepts exactly the valid journals and panics exactly when its plan does. */
    method ValidateReplay(h: Hashes) returns (r: Attempt<(), JournalReplayError>)
      ensures r.Done? <==> ValidJournal(h, Current())
      ensures r.Panicked? <==> JournalPanics(h, Current())
      ensures r.Rejected? ==> JournalRefused(h, Current(), r.error)
    {
      if schema != JOURNAL_SCHEMA {
        return Rejected(JournalSchema);
      }
      var plan := PublicationPlans.ValidateReplay(h, PlanOf(Current()));
      if !plan.Done? {
        return if plan.Panicked? then Panicked else Rejected(JournalPlan(plan.error));
      }
      if |entries| > |actions| {
        return Rejected(EntryCount);
      }
      for i := 0 to |entries|
        invariant forall k :: 0 <= k < i ==> EntryMatches(Current(), k)
      {
        if entries[i].action != i || entries[i].fingerprint != actions[i].publication.marker.fingerprint {
          assert Misplaced(Current(), i) && !EntryMatches(Current(), i);
          return Rejected(EntryIndex);
        }
        if !OutcomeAllowed(actions[i].decision, entries[i].outcome) {
          assert Misreported(Current(), i) && !EntryMatches(Current(), i);
          return Rejected(BadOutcome);
        }
      }
      if !StateMatches(Current()) {
        return Rejected(BadState);
      }
      return Done(());
    }

    /** The guard in front of every transition. */
    method Retained(h: Hashes) returns (refusal: Option<Reply>)
      ensures refusal.None? <==> ValidJournal(h, Current())
      ensures refusal.Some? ==> refusal.value == if JournalPanics(h, Current()) then Panics else Refused(RetainedState)
    {
      var replay := ValidateReplay(h);
      refusal := match replay
        case Done(_) => None
        case Rejected(_) => Some(Refused(RetainedState))
        case Panicked => Some(Panics);
    }

    /** How a call relates the journal before and after it. */
    ghost predicate Took(h: Hashes, before: Journal, call: Call, reply: Reply)
      reads this
    {
      if ValidJournal(h, before) then
        ValidJournal(h, Current()) && (Current(), reply) == Step(before, call) && Lawful(before, call, Current(), reply)
      else Current() == before && reply == if JournalPanics(h, before) then Panics else Refused(RetainedState)
    }

    method BeginNext(h: Hashes, observed: Snapshot) returns (reply: Reply)
      modifies this`state
      ensures Took(h, old(Current()), Call.BeginNext(observed), reply)
    {
      var refusal := Retained(h);
      if refusal.Some? {
        return refusal.value;
      }
      StepSound(h, Current(), Call.BeginNext(observed));
      StepIsLawful(Current(), Call.BeginNext(observed));
      if !state.Ready? {
        return Refused(InvalidState);
      }
      var next := state.next;
      if observed != snapshot {
        state := StoppedStale(next);
        return Refused(StaleSnapshot);
      }
      state := AwaitingOutcome(next);
      return Begun(actions[next]);
    }

    method FailCurrent(error: JournalError) returns (reply: Reply)
      modifies this`state
      ensures Current() == PublicationJournaling.FailCurrent(old(Current())) && reply == Refused(error)
    {
      match state {
        case Ready(action) => state := Failed(action);
        case AwaitingOutcome(action) => state := Failed(action);
        case AmbiguousOutcome(action) => state := Failed(action);
        case _ =>
      }
      return Refused(error);
    }

    method CompleteCurrent(action: nat, outcome: EntryOutcome)
      requires action < |actions|
      modifies this`state, this`entries
      ensures Current() == PublicationJournaling.CompleteCurrent(old(Current()), action, outcome)
    {
      entries := entries + [Entry(action, actions[action].publication.marker.fingerprint, outcome)];
      state := if action + 1 == |actions| then Completed else Ready(action + 1);
    }

    method Confirm(h: Hashes, noteId: nat) returns (reply: Reply)
      modifies this`state, this`entries
      ensures Took(h, old(Current()), Call.Confirm(noteId), reply)
    {
      var refusal := Retained(h);
      if refusal.Some? {
        return refusal.value;
      }
      StepSound(h, Current(), Call.Confirm(noteId));
      StepIsLawful(Current(), Call.Confirm(noteId));
      if noteId == 0 {
        reply := FailCurrent(WrongNote);
        return;
      }
      if !state.AwaitingOutcome? {
        return Refused(InvalidState);
      }
      var action := state.action;
      match actions[action].decision {
        case Create =>
          CompleteCurrent(action, Created(noteId));
        case NoOp(existing) =>
          if existing != noteId {
            reply := FailCurrent(WrongNote);
            return;
          }
          CompleteCurrent(action, KeptNote(noteId));
      }
      return Accepted;
    }

    method MarkAmbiguous(h: Hashes) returns (reply: Reply)
      modifies this`state
      ensures Took(h, old(Current()), Call.MarkAmbiguous, reply)
    {
      var refusal := Retained(h);
      if refusal.Some? {
        return refusal.value;
      }
      StepSound(h, Current(), Call.MarkAmbiguous);
      StepIsLawful(Current(), Call.MarkAmbiguous);
      if !state.AwaitingOutcome? {
        return Refused(InvalidState);
      }
      var action := state.action;
      if !actions[action].decision.Create? {
        reply := FailCurrent(InvalidState);
        return;
      }
      state := AmbiguousOutcome(action);
      return Accepted;
    }

    method ReconcileAmbiguous(h: Hashes, inventory: Inventory) returns (reply: Reply)
      modifies this`state, this`entries
      ensures Took(h, old(Current()), Call.ReconcileAmbiguous(inventory), reply)
    {
      var refusal := Retained(h);
      if refusal.Some? {
        return refusal.value;
      }
      StepSound(h, Current(), Call.ReconcileAmbiguous(inventory));
      StepIsLawful(Current(), Call.ReconcileAmbiguous(inventory));
      if !state.AmbiguousOutcome? {
        return Refused(InvalidState);
      }
      if InventoryIssue(inventory).Some? {
        return Refused(BadInventory);
      }
      var action := state.action;
      var matches := ExactMatches(bot, inventory.notes, actions[action].publication.marker);
      if |matches| == 0 {
        state := Ready(action);
        return RetryAuthorized;
      }
      if |matches| == 1 {
        CompleteCurrent(action, Reconciled(matches[0].noteId));
        return Recovered(matches[0].noteId);
      }
      reply := FailCurrent(AmbiguousMatch);
    }

    method StopStale(h: Hashes) returns (reply: Reply)
      modifies this`state
      ensures Took(h, old(Current()), Call.StopStale, reply)
    {
      var refusal := Retained(h);
      if refusal.Some? {
        return refusal.value;
      }
      StepSound(h, Current(), Call.StopStale);
      StepIsLawful(Current(), Call.StopStale);
      if !state.Ready? {
        return Refused(InvalidState);
      }
      state := StoppedStale(state.next);
      return Accepted;
    }

    method Fail(h: Hashes) returns (reply: Reply)
      modifies this`state
      ensures Took(h, old(Current()), Call.Fail, reply)
    {
      var refusal := Retained(h);
      if refusal.Some? {
        return refusal.value;
      }
      StepSound(h, Current(), Call.Fail);
      StepIsLawful(Current(), Call.Fail);
      if state.Terminal() {
        return Refused(InvalidState);
      }
      var _ := FailCurrent(InvalidState);
      return Accepted;
    }
  }
}
