/** The journals that pass replay validation are the journals that the public calls can reach. */
module PublicationReachability {
  import opened Wrappers
  import opened Markers
  import opened PublicationPlans
  import opened PublicationJournaling
  import Sequences

  /** The journal with the first `n` entries of `j`, ready for the next action. */
  function Behind(j: Journal, n: nat): Journal
    requires n <= |j.entries| <= |j.actions|
  {
    j.(entries := j.entries[..n], state := if n == |j.actions| then Completed else Ready(n))
  }

  /** The calls that finish an action with a given outcome. */
  function Finishing(j: Journal, outcome: EntryOutcome, p: Prepared): seq<Call> {
    match outcome
    case Created(noteId) => [BeginNext(j.snapshot), Confirm(noteId)]
    case KeptNote(noteId) => [BeginNext(j.snapshot), Confirm(noteId)]
    case Reconciled(noteId) =>
      [BeginNext(j.snapshot), MarkAmbiguous, ReconcileAmbiguous(Inventory(true, [Note(noteId, j.bot, p.markedBody)]))]
  }

  lemma {:induction false} StepAllConcat(h: Hashes, j: Journal, a: seq<Call>, b: seq<Call>)
    requires ValidJournal(h, j)
    ensures StepAll(j, a + b) == StepAll(StepAll(j, a), b)
    decreases |a|
  {
    if a == [] {
      assert a + b == b;
    } else {
      StepSound(h, j, a[0]);
      StepAllConcat(h, Step(j, a[0]).0, a[1..], b);
      assert (a + b)[1..] == a[1..] + b;
    }
  }

  lemma {:induction false} StepTwice(h: Hashes, j: Journal, a: Call, b: Call)
    requires ValidJournal(h, j)
    ensures StepAll(j, [a]) == Step(j, a).0
    ensures StateMatches(Step(j, a).0) && StepAll(j, [a, b]) == Step(Step(j, a).0, b).0
  {
    StepSound(h, j, a);
    assert [a, b][1..] == [b] && [a][1..] == [] && [b][1..] == [];
    var k := Step(j, a).0;
    StepSound(h, k, b);
    assert StepAll(j, [a, b]) == StepAll(k, [b]);
    assert StepAll(k, [b]) == StepAll(Step(k, b).0, []);
  }

  lemma BehindIsValid(h: Hashes, j: Journal, n: nat)
    requires ValidJournal(h, j) && n <= |j.entries|
    ensures ValidJournal(h, Behind(j, n))
  {
    assert PlanOf(Behind(j, n)) == PlanOf(j);
    forall i | 0 <= i < n ensures EntryMatches(Behind(j, n), i) {
      assert EntryMatches(j, i);
    }
  }

  /** The finished note carries the marker of its action, so a reconciliation finds it. */
  lemma NoteIsFound(h: Hashes, snapshot: Snapshot, bot: nat, a: Action, noteId: nat)
    requires ValidAction(h, snapshot, a) && bot != 0 && noteId != 0
    ensures var n := Note(noteId, bot, a.publication.markedBody);
      ValidInventory(Inventory(true, [n])) && ExactMatches(bot, [n], a.publication.marker) == [n]
  {
    var n := Note(noteId, bot, a.publication.markedBody);
    TerminalOfMarked(a.publication.body, a.publication.marker);
    Sequences.FilterCons(OwnedMark(bot, a.publication.marker), n, []);
    assert [n] + [] == [n];
  }

  /** One more entry of `j` is one more finished action. */
  lemma FinishOne(h: Hashes, j: Journal, n: nat)
    requires ValidJournal(h, j) && n < |j.entries|
    ensures StepAll(Behind(j, n), Finishing(j, j.entries[n].outcome, j.actions[n].publication)) == Behind(j, n + 1)
  {
    BehindIsValid(h, j, n);
    assert EntryMatches(j, n) && j.actions[n] in PlanOf(j).actions;
    OneMoreEntry(j, n);
    if j.entries[n].outcome.Reconciled? {
      FinishByReconciling(h, j, Behind(j, n), n, j.entries[n].outcome.noteId);
    } else {
      StepTwice(h, Behind(j, n), BeginNext(j.snapshot), Confirm(j.entries[n].outcome.noteId));
    }
  }

  lemma OneMoreEntry(j: Journal, n: nat)
    requires n < |j.entries| <= |j.actions| && EntryMatches(j, n)
    ensures Behind(j, n + 1) == CompleteCurrent(Behind(j, n), n, j.entries[n].outcome)
  {
    assert j.entries[..n + 1] == j.entries[..n] + [j.entries[n]];
  }

  lemma {:induction false} FinishByReconciling(h: Hashes, j: Journal, b: Journal, n: nat, noteId: nat)
    requires ValidJournal(h, b) && n == |b.entries| < |b.actions| && b.state == Ready(n) && b.snapshot == j.snapshot && b.bot == j.bot
    requires b.actions[n].decision.Create? && noteId != 0
    ensures StepAll(b, Finishing(j, Reconciled(noteId), b.actions[n].publication)) == CompleteCurrent(b, n, Reconciled(noteId))
  {
    assert b.actions[n] in PlanOf(b).actions;
    var begun, last := [BeginNext(j.snapshot), MarkAmbiguous], Finishing(j, Reconciled(noteId), b.actions[n].publication)[2];
    NoteIsFound(h, b.snapshot, b.bot, b.actions[n], noteId);
    StepTwice(h, b, BeginNext(j.snapshot), MarkAmbiguous);
    JournalsStayValid(h, b, begun);
    StepTwice(h, b.(state := AmbiguousOutcome(n)), last, last);
    StepAllConcat(h, b, begun, [last]);
    assert Finishing(j, Reconciled(noteId), b.actions[n].publication) == begun + [last];
  }

  lemma {:induction false} ReachBehind(h: Hashes, j: Journal, n: nat) returns (calls: seq<Call>)
    requires ValidJournal(h, j) && n <= |j.entries|
    ensures StepAll(NewJournal(PlanOf(j)), calls) == Behind(j, n)
  {
    NewJournalValid(h, PlanOf(j));
    if n == 0 {
      calls := [];
    } else {
      var before := ReachBehind(h, j, n - 1);
      FinishOne(h, j, n - 1);
      var more := Finishing(j, j.entries[n - 1].outcome, j.actions[n - 1].publication);
      StepAllConcat(h, NewJournal(PlanOf(j)), before, more);
      calls := before + more;
    }
  }

  /** The calls from a journal that is ready for its next action to any state that stands there. */
  function Closing(j: Journal): seq<Call> {
    match j.state
    case Ready(_) => []
    case AwaitingOutcome(_) => [BeginNext(j.snapshot)]
    case AmbiguousOutcome(_) => [BeginNext(j.snapshot), MarkAmbiguous]
    case Completed => []
    case StoppedStale(_) => [StopStale]
    case Failed(_) => [Fail]
  }

  lemma CloseReaches(h: Hashes, j: Journal)
    requires ValidJournal(h, j)
    ensures StepAll(Behind(j, |j.entries|), Closing(j)) == j
  {
    var b := Behind(j, |j.entries|);
    assert j.entries[..|j.entries|] == j.entries;
    BehindIsValid(h, j, |j.entries|);
    StepTwice(h, b, BeginNext(j.snapshot), MarkAmbiguous);
    StepTwice(h, b, StopStale, StopStale);
    StepTwice(h, b, Fail, Fail);
  }

  /** Replay validation is exact: a journal passes it if and only if its plan does and some calls lead to it
      from the new journal of that plan. */
  lemma {:induction false} ValidIsReachable(h: Hashes, j: Journal)
    ensures ValidJournal(h, j) <==>
      ValidPlan(h, PlanOf(j)) && exists calls :: StepAll(NewJournal(PlanOf(j)), calls) == j
  {
    if ValidJournal(h, j) {
      var before := ReachBehind(h, j, |j.entries|);
      NewJournalValid(h, PlanOf(j));
      CloseReaches(h, j);
      StepAllConcat(h, NewJournal(PlanOf(j)), before, Closing(j));
      assert StepAll(NewJournal(PlanOf(j)), before + Closing(j)) == j;
    }
    if ValidPlan(h, PlanOf(j)) {
      NewJournalValid(h, PlanOf(j));
      forall calls | StepAll(NewJournal(PlanOf(j)), calls) == j ensures ValidJournal(h, j) {
        JournalsStayValid(h, NewJournal(PlanOf(j)), calls);
      }
    }
  }
}
