/** Recovery always can finish: from every consistent world in which the journal has not stopped, some
    continuation publishes everything (crates/revoot-core/src/publication.rs, lines 809-1018). */
module PublicationProgress {
  import opened Wrappers
  import opened PublicationPlans
  import opened PublicationJournaling
  import opened PublicationHosts

  /** Comments the journal may still add. */
  function Outstanding(w: World): int {
    |w.journal.actions| - |w.journal.entries| - if w.flight.Applied? then 1 else 0
  }

  /** A consistent world whose journal has neither stopped nor failed, on a host with room. */
  ghost predicate Alive(h: Hashes, w: World) {
    && Consistent(h, w)
    && !w.journal.state.StoppedStale? && !w.journal.state.Failed?
    && ValidInventory(Inventory(true, w.notes))
    && |w.notes| + Outstanding(w) <= MAX_EXISTING_NOTES
  }

  /** Steps left for the current action. */
  function Stage(w: World): nat {
    match w.journal.state
    case Ready(_) => 5
    case AwaitingOutcome(_) => if w.flight.InFlight? then 4 else if w.flight.Lost? then 7 else 3
    case AmbiguousOutcome(_) => if w.flight.Applied? then 1 else if w.flight.InFlight? then 2 else 6
    case _ => 0
  }

  function Remaining(w: World): nat {
    if |w.journal.entries| <= |w.journal.actions| then 8 * (|w.journal.actions| - |w.journal.entries|) + Stage(w) else 0
  }

  function LargestId(notes: seq<Note>): (id: nat)
    ensures forall n :: n in notes ==> n.noteId <= id
  {
    if notes == [] then 0
    else
      var rest := LargestId(notes[1..]);
      if rest < notes[0].noteId then notes[0].noteId else rest
  }

  /** What to do next. */
  function NextEvent(w: World): Event {
    match w.journal.state
    case Ready(_) => Begin(w.journal.snapshot)
    case AwaitingOutcome(_) =>
      if w.flight.InFlight? then Deliver(LargestId(w.notes) + 1)
      else if w.flight.Lost? then LoseResponse
      else ConfirmResponse
    case _ => if w.flight.InFlight? then Deliver(LargestId(w.notes) + 1) else Inspect(true)
  }

  lemma NewNoteValid(notes: seq<Note>, n: Note)
    requires ValidInventory(Inventory(true, notes)) && |notes| < MAX_EXISTING_NOTES
    requires FreshId(notes, n.noteId) && n.author != 0
    ensures ValidInventory(Inventory(true, notes + [n]))
  {
    var all := notes + [n];
    forall i, j | 0 <= i < j < |all| ensures all[i].noteId != all[j].noteId {
      if j == |notes| {
        assert notes[i] in notes;
      }
    }
  }

  lemma FreshDelivery(w: World)
    ensures FreshId(w.notes, LargestId(w.notes) + 1)
  {
  }

  lemma DeliveryAdvances(h: Hashes, w: World)
    requires Alive(h, w) && w.flight.InFlight? && (w.journal.state.AwaitingOutcome? || w.journal.state.AmbiguousOutcome?)
    ensures var e := Deliver(LargestId(w.notes) + 1);
      Enabled(w, e) && Alive(h, Next(w, e)) && Remaining(Next(w, e)) < Remaining(w)
  {
    var id := LargestId(w.notes) + 1;
    FreshDelivery(w);
    NextConsistent(h, w, Deliver(id));
    var body := w.journal.actions[ActionIndex(w.journal)].publication.markedBody;
    NewNoteValid(w.notes, Note(id, w.journal.bot, body));
  }

  lemma CallAdvances(h: Hashes, w: World)
    requires Alive(h, w) && !w.journal.state.Completed? && !w.flight.InFlight?
    ensures Enabled(w, NextEvent(w)) && Alive(h, Next(w, NextEvent(w))) && Remaining(Next(w, NextEvent(w))) < Remaining(w)
  {
    NextConsistent(h, w, NextEvent(w));
    var j := w.journal;
    assert j.actions[|j.entries|] in PlanOf(j).actions;
    if j.state.AmbiguousOutcome? {
      InspectFinds(h, w);
    }
  }

  /** In every world that is alive and not finished, some event brings the end nearer. */
  lemma EventAdvances(h: Hashes, w: World)
    requires Alive(h, w) && !w.journal.state.Completed?
    ensures Enabled(w, NextEvent(w)) && Alive(h, Next(w, NextEvent(w))) && Remaining(Next(w, NextEvent(w))) < Remaining(w)
  {
    if w.flight.InFlight? {
      DeliveryAdvances(h, w);
    } else {
      CallAdvances(h, w);
    }
  }

  /** No reachable state of a live journal is stuck: some continuation completes it. */
  lemma {:induction false} CanAlwaysFinish(h: Hashes, w: World) returns (events: seq<Event>)
    requires Alive(h, w)
    ensures IsRun(w, events) && After(w, events).journal.state.Completed?
    decreases Remaining(w)
  {
    if w.journal.state.Completed? {
      events := [];
    } else {
      EventAdvances(h, w);
      var e := NextEvent(w);
      var rest := CanAlwaysFinish(h, Next(w, e));
      events := [e] + rest;
      assert events[1..] == rest;
    }
  }
}
