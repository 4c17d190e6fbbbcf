/** The journal driven against a code host that may lose requests and responses
    (crates/revoot-core/src/publication.rs, lines 809-1018, as driven by
    crates/revoot/src/gitlab_publication.rs, lines 409-630). */
module PublicationHosts {
  import opened Wrappers
  import opened Sequences
  import opened Digests
  import opened Markers
  import opened PublicationPlans
  import opened PublicationJournaling

  /** The last create request, as the host sees it. */
  datatype Flight =
    | Grounded                  // no request since the journal last moved on
    | InFlight                  // sent, not yet decided
    | Applied(noteId: nat)      // took effect
    | Lost                      // will never take effect

  datatype World = World(journal: Journal, notes: seq<Note>, flight: Flight)

  datatype Event =
    | Begin(observed: Snapshot)   // begin_next; a create request is sent when it begins a Create action
    | Deliver(noteId: nat)        // the host carries the request out
    | Drop                        // the request is lost for good
    | ConfirmResponse             // the response arrives, or a no-op is confirmed
    | LoseResponse                // mark_ambiguous, also after a crash
    | Inspect(complete: bool)     // reconcile_ambiguous against the host's notes
    | Stop                        // stop_stale
    | GiveUp                      // fail
    | Interject(note: Note)       // somebody else comments

  function ActionIndex(j: Journal): nat {
    |j.entries|
  }

  /** The action the journal is working on is a Create. */
  predicate Creating(j: Journal) {
    |j.entries| < |j.actions| && j.actions[|j.entries|].decision.Create?
  }

  predicate FreshId(notes: seq<Note>, id: nat) {
    id != 0 && forall n :: n in notes ==> n.noteId != id
  }

  /** The three assumptions about the environment: a request is decided before the next inventory is
      read, a confirmation carries the identity the host returned, and nobody else posts as the
      bot. */
  predicate Enabled(w: World, e: Event) {
    match e
    case Begin(_) => true
    case Deliver(id) => w.flight.InFlight? && FreshId(w.notes, id)
    case Drop => w.flight.InFlight?
    case ConfirmResponse => w.journal.state.AwaitingOutcome? && (Creating(w.journal) ==> w.flight.Applied?)
    case LoseResponse => true
    case Inspect(_) => !w.flight.InFlight?
    case Stop => true
    case GiveUp => true
    case Interject(n) => n.author != w.journal.bot && FreshId(w.notes, n.noteId)
  }

  /** The journal call of an event. */
  function CallOf(w: World, e: Event): Option<Call>
    requires Enabled(w, e)
  {
    match e
    case Begin(observed) => Some(BeginNext(observed))
    case ConfirmResponse =>
      if w.flight.Applied? then Some(Confirm(w.flight.noteId))
      else if |w.journal.entries| < |w.journal.actions| && w.journal.actions[|w.journal.entries|].decision.NoOp?
        then Some(Confirm(w.journal.actions[|w.journal.entries|].decision.existing))
      else None
    case LoseResponse => Some(MarkAmbiguous)
    case Inspect(complete) => Some(ReconcileAmbiguous(Inventory(complete, w.notes)))
    case Stop => Some(StopStale)
    case GiveUp => Some(Fail)
    case _ => None
  }

  function NextFlight(w: World, k: Journal, reply: Reply): Flight {
    match reply
    case Begun(action) => if action.decision.Create? then InFlight else Grounded
    case RetryAuthorized => Grounded
    case _ => if |k.entries| > |w.journal.entries| then Grounded else w.flight
  }

  function Next(w: World, e: Event): World
    requires Enabled(w, e) && StateMatches(w.journal)
  {
    match e
    case Deliver(id) =>
      if !Creating(w.journal) then w
      else
        var body := w.journal.actions[ActionIndex(w.journal)].publication.markedBody;
        w.(notes := w.notes + [Note(id, w.journal.bot, body)], flight := Applied(id))
    case Drop => w.(flight := Lost)
    case Interject(n) => w.(notes := w.notes + [n])
    case _ =>
      var call := CallOf(w, e);
      if call.None? then w
      else
        var (k, reply) := Step(w.journal, call.value);
        World(k, w.notes, NextFlight(w, k, reply))
  }

  /** Notes on the host that belong to an action. */
  function Copies(w: World, i: nat): seq<Note>
    requires i < |w.journal.actions|
  {
    ExactMatches(w.journal.bot, w.notes, w.journal.actions[i].publication.marker)
  }

  // ----- the invariant

  /** A request is under way exactly while the journal works on a Create action. */
  predicate FlightMatches(w: World) {
    match w.journal.state
    case AwaitingOutcome(_) => Creating(w.journal) <==> !w.flight.Grounded?
    case AmbiguousOutcome(_) => !w.flight.Grounded?
    case Failed(_) => !w.flight.Grounded? ==> Creating(w.journal)
    case _ => w.flight.Grounded?
  }

  /** How many notes each Create action has: one once finished, none before it is begun, and for the
      current one whatever the host did with its request. */
  predicate CopiesMatch(w: World, i: nat)
    requires i < |w.journal.actions|
  {
    w.journal.actions[i].decision.Create? ==>
      if i < |w.journal.entries| then
        |Copies(w, i)| == 1 && Copies(w, i)[0].noteId == w.journal.entries[i].outcome.noteId
      else if i == |w.journal.entries| && w.flight.Applied? then
        |Copies(w, i)| == 1 && Copies(w, i)[0].noteId == w.flight.noteId
      else Copies(w, i) == []
  }

  ghost predicate Consistent(h: Hashes, w: World) {
    && ValidJournal(h, w.journal)
    && FlightMatches(w)
    && (w.flight.Applied? ==> w.flight.noteId != 0)
    && forall i :: 0 <= i < |w.journal.actions| ==> CopiesMatch(w, i)
  }

  /** A plan built from the host's own notes starts consistent. */
  lemma PlannedWorldConsistent(h: Hashes, snapshot: Snapshot, bot: nat, candidates: seq<Candidate>, inventory: Inventory)
    requires Plannable(h, snapshot, bot, candidates, inventory)
    ensures var plan := PlanFor(h, snapshot, bot, candidates, inventory.notes);
      Consistent(h, World(NewJournal(plan), inventory.notes, Grounded))
  {
    var plan := PlanFor(h, snapshot, bot, candidates, inventory.notes);
    BuiltPlansReplay(h, snapshot, bot, candidates, inventory);
    NewJournalValid(h, plan);
    var w := World(NewJournal(plan), inventory.notes, Grounded);
    forall i | 0 <= i < |plan.actions| ensures CopiesMatch(w, i) {
    }
  }

  lemma AppendCopies(bot: nat, notes: seq<Note>, n: Note, marker: PublicationMarker)
    ensures ExactMatches(bot, notes + [n], marker)
         == ExactMatches(bot, notes, marker) + if OwnedMark(bot, marker)(n) then [n] else []
  {
    FilterConcat(OwnedMark(bot, marker), notes, [n]);
  }

  /** The note of an action carries that action's marker and no other's. */
  lemma OwnMarkerOnly(h: Hashes, j: Journal, i: nat, k: nat, id: nat)
    requires ValidJournal(h, j) && i < |j.actions| && k < |j.actions|
    ensures OwnedMark(j.bot, j.actions[k].publication.marker)(Note(id, j.bot, j.actions[i].publication.markedBody)) <==> i == k
  {
    assert j.actions[i] in PlanOf(j).actions;
    TerminalOfMarked(j.actions[i].publication.body, j.actions[i].publication.marker);
  }

  lemma DeliverKeeps(h: Hashes, w: World, id: nat)
    requires Consistent(h, w) && Enabled(w, Deliver(id))
    ensures Consistent(h, Next(w, Deliver(id)))
  {
    var v := Next(w, Deliver(id));
    var j := w.journal;
    if Creating(j) {
      var current := ActionIndex(j);
      var n := Note(id, j.bot, j.actions[current].publication.markedBody);
      forall i | 0 <= i < |j.actions| ensures CopiesMatch(v, i) {
        assert CopiesMatch(w, i);
        OwnMarkerOnly(h, j, current, i, id);
        AppendCopies(j.bot, w.notes, n, j.actions[i].publication.marker);
      }
    }
  }

  lemma InterjectKeeps(h: Hashes, w: World, n: Note)
    requires Consistent(h, w) && Enabled(w, Interject(n))
    ensures Consistent(h, Next(w, Interject(n)))
  {
    var v := Next(w, Interject(n));
    forall i | 0 <= i < |w.journal.actions| ensures CopiesMatch(v, i) {
      assert CopiesMatch(w, i);
      AppendCopies(w.journal.bot, w.notes, n, w.journal.actions[i].publication.marker);
    }
  }

  lemma DropKeeps(h: Hashes, w: World)
    requires Consistent(h, w) && Enabled(w, Drop)
    ensures Consistent(h, Next(w, Drop))
  {
    var v := Next(w, Drop);
    forall i | 0 <= i < |w.journal.actions| ensures CopiesMatch(v, i) {
      assert CopiesMatch(w, i);
    }
  }

  /** A journal call that records nothing leaves the counts alone. */
  lemma QuietCallKeepsCopies(h: Hashes, w: World, v: World)
    requires Consistent(h, w)
    requires PlanOf(v.journal) == PlanOf(w.journal) && v.notes == w.notes && v.journal.entries == w.journal.entries
    requires v.flight == w.flight || (!v.flight.Applied? && !w.flight.Applied?)
    ensures forall i :: 0 <= i < |v.journal.actions| ==> CopiesMatch(v, i)
  {
    forall i | 0 <= i < |v.journal.actions| ensures CopiesMatch(v, i) {
      assert CopiesMatch(w, i);
    }
  }

  /** A recorded outcome names the one note there is. */
  lemma RecordedCallKeepsCopies(h: Hashes, w: World, v: World)
    requires Consistent(h, w) && v.flight == Grounded
    requires PlanOf(v.journal) == PlanOf(w.journal) && v.notes == w.notes
    requires |v.journal.entries| == |w.journal.entries| + 1 <= |w.journal.actions|
    requires w.journal.entries <= v.journal.entries
    requires Creating(w.journal) ==> w.flight.Applied? && v.journal.entries[|w.journal.entries|].outcome.noteId == w.flight.noteId
    ensures forall i :: 0 <= i < |v.journal.actions| ==> CopiesMatch(v, i)
  {
    forall i | 0 <= i < |v.journal.actions| ensures CopiesMatch(v, i) {
      assert CopiesMatch(w, i);
      if i < |w.journal.entries| {
        assert v.journal.entries[i] == w.journal.entries[i];
      }
    }
  }

  /** Reconciliation finds the note if and only if the request took effect, and never two. */
  lemma InspectFinds(h: Hashes, w: World)
    requires Consistent(h, w) && w.journal.state.AmbiguousOutcome? && !w.flight.InFlight?
    ensures var matches := Copies(w, ActionIndex(w.journal));
      if w.flight.Applied? then |matches| == 1 && matches[0].noteId == w.flight.noteId else matches == []
  {
    assert CopiesMatch(w, ActionIndex(w.journal));
  }

  lemma CallKeeps(h: Hashes, w: World, e: Event)
    requires Consistent(h, w) && Enabled(w, e) && CallOf(w, e).Some?
    ensures Consistent(h, Next(w, e))
    ensures Step(w.journal, CallOf(w, e).value).1 != Refused(AmbiguousMatch)
  {
    var call := CallOf(w, e).value;
    var (k, reply) := Step(w.journal, call);
    StepSound(h, w.journal, call);
    if e.Inspect? && w.journal.state.AmbiguousOutcome? {
      InspectFinds(h, w);
    }
    var v := Next(w, e);
    assert v == World(k, w.notes, NextFlight(w, k, reply));
    if |k.entries| == |w.journal.entries| {
      QuietCallKeepsCopies(h, w, v);
    } else {
      RecordedCallKeepsCopies(h, w, v);
    }
  }

  lemma NextConsistent(h: Hashes, w: World, e: Event)
    requires Consistent(h, w) && Enabled(w, e)
    ensures Consistent(h, Next(w, e)) && PlanOf(Next(w, e).journal) == PlanOf(w.journal)
  {
    match e
    case Deliver(id) => DeliverKeeps(h, w, id);
    case Drop => DropKeeps(h, w);
    case Interject(n) => InterjectKeeps(h, w, n);
    case _ =>
      if CallOf(w, e).Some? {
        StepSound(h, w.journal, CallOf(w, e).value);
        CallKeeps(h, w, e);
      }
  }

  // ----- whole runs

  /** Every event of a run is enabled when it happens. */
  ghost predicate IsRun(w: World, events: seq<Event>)
    decreases |events|
  {
    events == [] ||
    (StateMatches(w.journal) && Enabled(w, events[0]) && IsRun(Next(w, events[0]), events[1..]))
  }

  ghost function After(w: World, events: seq<Event>): World
    requires IsRun(w, events)
    decreases |events|
  {
    if events == [] then w else After(Next(w, events[0]), events[1..])
  }

  lemma {:induction false} RunsStayConsistent(h: Hashes, w: World, events: seq<Event>)
    requires Consistent(h, w) && IsRun(w, events)
    ensures Consistent(h, After(w, events)) && PlanOf(After(w, events).journal) == PlanOf(w.journal)
    decreases |events|
  {
    if events != [] {
      NextConsistent(h, w, events[0]);
      RunsStayConsistent(h, Next(w, events[0]), events[1..]);
    }
  }

  /** At most once: over every run of begins, deliveries, lost requests, lost responses,
      reconciliations, retries, crashes and foreign comments, the host never holds two notes of the
      bot with one Create action's marker, and a completed journal has exactly one for each, under
      the identity the journal recorded. */
  lemma {:induction false} AtMostOncePublication(h: Hashes, snapshot: Snapshot, bot: nat, candidates: seq<Candidate>, inventory: Inventory,
                              events: seq<Event>, i: nat)
    requires Plannable(h, snapshot, bot, candidates, inventory)
    requires IsRun(World(NewJournal(PlanFor(h, snapshot, bot, candidates, inventory.notes)), inventory.notes, Grounded), events)
    requires i < |PlanFor(h, snapshot, bot, candidates, inventory.notes).actions|
    requires PlanFor(h, snapshot, bot, candidates, inventory.notes).actions[i].decision.Create?
    ensures var plan := PlanFor(h, snapshot, bot, candidates, inventory.notes);
      var end := After(World(NewJournal(plan), inventory.notes, Grounded), events);
      var copies := ExactMatches(bot, end.notes, plan.actions[i].publication.marker);
      && |copies| <= 1
      && (end.journal.state.Completed? ==>
            && |copies| == 1 && i < |end.journal.entries|
            && copies[0].noteId == end.journal.entries[i].outcome.noteId)
  {
    var plan := PlanFor(h, snapshot, bot, candidates, inventory.notes);
    var start := World(NewJournal(plan), inventory.notes, Grounded);
    PlannedWorldConsistent(h, snapshot, bot, candidates, inventory);
    RunsStayConsistent(h, start, events);
    var end := After(start, events);
    assert CopiesMatch(end, i);
  }

  // ----- stopping

  function OfBot(bot: nat): Note -> bool {
    (n: Note) => n.author == bot
  }

  /** What the bot has posted. */
  function BotNotes(w: World): seq<Note> {
    Filter(OfBot(w.journal.bot), w.notes)
  }

  /** A stopped or completed journal with no request under way is at rest: nothing that happens adds a note
      of the bot, or moves the journal. */
  ghost predicate AtRest(h: Hashes, w: World) {
    Consistent(h, w) && (w.journal.state.StoppedStale? || w.journal.state.Completed?)
  }

  lemma RestIsKept(h: Hashes, w: World, e: Event)
    requires AtRest(h, w) && Enabled(w, e)
    ensures AtRest(h, Next(w, e)) && Next(w, e).journal == w.journal && BotNotes(Next(w, e)) == BotNotes(w)
  {
    NextConsistent(h, w, e);
    if e.Interject? {
      FilterConcat(OfBot(w.journal.bot), w.notes, [e.note]);
    } else if !e.Deliver? && !e.Drop? && CallOf(w, e).Some? {
      StepSound(h, w.journal, CallOf(w, e).value);
    }
  }

  lemma {:induction false} RestLasts(h: Hashes, w: World, events: seq<Event>)
    requires AtRest(h, w) && IsRun(w, events)
    ensures After(w, events).journal == w.journal && BotNotes(After(w, events)) == BotNotes(w)
    decreases |events|
  {
    if events != [] {
      RestIsKept(h, w, events[0]);
      RestLasts(h, Next(w, events[0]), events[1..]);
    }
  }

  /** The merge request has moved on: the journal is told to stop, or asked to begin on another snapshot. */
  predicate MovedOn(w: World, e: Event) {
    e.Stop? || (e.Begin? && e.observed != w.journal.snapshot)
  }

  /** A journal that is ready to act and learns that the merge request has moved on stops in front of the
      same action, and whatever happens from then on, the bot never posts another note. */
  lemma {:induction false} StoppingIsFinal(h: Hashes, w: World, e: Event, events: seq<Event>)
    requires Consistent(h, w) && w.journal.state.Ready? && MovedOn(w, e) && IsRun(w, [e] + events)
    ensures var end := After(w, [e] + events);
      && end.journal == w.journal.(state := StoppedStale(|w.journal.entries|))
      && BotNotes(end) == BotNotes(w)
  {
    assert ([e] + events)[0] == e && ([e] + events)[1..] == events;
    StepIsLawful(w.journal, CallOf(w, e).value);
    NextConsistent(h, w, e);
    RestLasts(h, Next(w, e), events);
  }
}
