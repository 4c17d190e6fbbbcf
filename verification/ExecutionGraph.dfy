/** The journal of a scheduler run and what it says about every node
    (crates/revoot-core/src/execution_graph.rs, lines 193-260). */
module ExecutionJournals {
  import opened Wrappers
  import opened Sorting
  import opened ExecutionPlans

  datatype NodeState = Pending | Running | Completed | Failed | Cancelled {
    predicate Active() { Pending? || Running? }
  }

  datatype EventKind = StartedEvent | CompletedEvent | FailedEvent | CancelledEvent

  datatype Event = Event(sequence: nat, nodeId: NodeId, kind: EventKind, observedAt: nat)

  type States = map<NodeId, NodeState>

  function StateAfter(kind: EventKind): NodeState {
    match kind
    case StartedEvent => Running
    case CompletedEvent => Completed
    case FailedEvent => Failed
    case CancelledEvent => Cancelled
  }

  // ----- sums over the nodes of a plan

  function Sum(nodes: seq<NodeSpec>, states: States, w: NodeState -> nat): nat {
    if nodes == [] then 0
    else (if nodes[0].id in states then w(states[nodes[0].id]) else 0) + Sum(nodes[1..], states, w)
  }

  lemma {:induction false} SumFrame(nodes: seq<NodeSpec>, a: States, b: States, w: NodeState -> nat)
    requires forall n :: n in nodes ==> (n.id in a <==> n.id in b) && (n.id in a ==> a[n.id] == b[n.id])
    ensures Sum(nodes, a, w) == Sum(nodes, b, w)
  {
    if nodes != [] {
      assert nodes[0] in nodes;
      SumFrame(nodes[1..], a, b, w);
    }
  }

  /** Changing one node's state changes a sum by that node's weight. */
  lemma {:induction false} SumUpdate(nodes: seq<NodeSpec>, states: States, w: NodeState -> nat, x: NodeId, to: NodeState)
    requires UniqueIds(nodes) && x in Ids(nodes) && x in states
    ensures Sum(nodes, states[x := to], w) + w(states[x]) == Sum(nodes, states, w) + w(to)
    ensures Sum(nodes, states, w) >= w(states[x])
  {
    var rest := nodes[1..];
    if nodes[0].id == x {
      forall n | n in rest ensures n.id != x {
        var j :| 0 <= j < |rest| && rest[j] == n;
        assert nodes[j + 1] == n;
      }
      SumFrame(rest, states, states[x := to], w);
    } else {
      var n :| n in nodes && n.id == x;
      assert n in rest;
      SumUpdate(rest, states, w, x, to);
    }
  }

  function CountOf(state: NodeState): NodeState -> nat {
    s => if s == state then 1 else 0
  }

  function Count(nodes: seq<NodeSpec>, states: States, state: NodeState): nat {
    Sum(nodes, states, CountOf(state))
  }

  /** Events a node may still record. */
  const Slack: NodeState -> nat := (s: NodeState) => if s.Pending? then 2 else if s.Running? then 1 else 0

  // ----- legal journals

  /** The node states a journal stands for. */
  function Replay(plan: Plan, events: seq<Event>): States {
    if events == [] then map n | n in plan.nodes :: n.id := Pending
    else
      var e := events[|events| - 1];
      Replay(plan, events[..|events| - 1])[e.nodeId := StateAfter(e.kind)]
  }

  predicate DependenciesDone(n: NodeSpec, states: States) {
    forall d :: d in n.dependencies ==> d in states && states[d] == Completed
  }

  /** Whether a journal whose replay is `states` may be extended by an event about `n`. */
  ghost predicate MayRecord(plan: Plan, states: States, n: NodeSpec, kind: EventKind) {
    n in plan.nodes && n.id in states &&
    match kind
    case StartedEvent =>
      states[n.id] == Pending && DependenciesDone(n, states)
      && Count(plan.nodes, states, Running) < plan.limits.maxParallelNodes
    case CompletedEvent => states[n.id] == Running
    case FailedEvent => states[n.id] == Running
    case CancelledEvent => states[n.id].Active()
  }

  /** Journals the scheduler may write: contiguous sequence numbers, a clock that never runs
      backwards, and only permitted transitions. */
  ghost predicate Legal(plan: Plan, events: seq<Event>) {
    events == [] ||
    (var e, before := events[|events| - 1], events[..|events| - 1];
     && Legal(plan, before)
     && e.sequence == |before| + 1
     && (before != [] ==> before[|before| - 1].observedAt <= e.observedAt)
     && exists n: NodeSpec :: n.id == e.nodeId && MayRecord(plan, Replay(plan, before), n, e.kind))
  }

  lemma {:induction false} ReplayKeys(plan: Plan, events: seq<Event>)
    requires Legal(plan, events)
    ensures Replay(plan, events).Keys == Ids(plan.nodes)
  {
    if events != [] {
      ReplayKeys(plan, events[..|events| - 1]);
    }
  }

  lemma {:induction false} LegalPrefix(plan: Plan, events: seq<Event>, k: nat)
    requires Legal(plan, events) && k <= |events|
    ensures Legal(plan, events[..k])
    decreases |events|
  {
    if k == |events| {
      assert events[..k] == events;
    } else {
      LegalPrefix(plan, events[..|events| - 1], k);
      assert events[..|events| - 1][..k] == events[..k];
    }
  }

  // ----- what a legal journal says

  /** The kinds of the events about one node, in order. */
  function History(events: seq<Event>, x: NodeId): seq<EventKind> {
    if events == [] then []
    else
      var e := events[|events| - 1];
      History(events[..|events| - 1], x) + (if e.nodeId == x then [e.kind] else [])
  }

  /** The six histories a node can have, each with the state it leaves behind. */
  predicate HistoryLeads(h: seq<EventKind>, state: NodeState) {
    match state
    case Pending => h == []
    case Running => h == [StartedEvent]
    case Completed => h == [StartedEvent, CompletedEvent]
    case Failed => h == [StartedEvent, FailedEvent]
    case Cancelled => h == [CancelledEvent] || h == [StartedEvent, CancelledEvent]
  }

  /** A node is started at most once and finished at most once, and its state is what its history
      says. */
  lemma {:induction false} HistoriesDecideStates(plan: Plan, events: seq<Event>, x: NodeId)
    requires Legal(plan, events) && x in Ids(plan.nodes)
    ensures x in Replay(plan, events) && HistoryLeads(History(events, x), Replay(plan, events)[x])
  {
    ReplayKeys(plan, events);
    if events != [] {
      HistoriesDecideStates(plan, events[..|events| - 1], x);
    }
  }

  /** A completed node has a Completed event. */
  lemma {:induction false} CompletedHasEvent(plan: Plan, events: seq<Event>, x: NodeId) returns (i: nat)
    requires Legal(plan, events) && x in Replay(plan, events) && Replay(plan, events)[x] == Completed
    ensures i < |events| && events[i].nodeId == x && events[i].kind == CompletedEvent
  {
    var e := events[|events| - 1];
    if e.nodeId == x {
      i := |events| - 1;
    } else {
      i := CompletedHasEvent(plan, events[..|events| - 1], x);
    }
  }

  /** Every Started event comes behind the Completed event of each dependency. */
  lemma StartsFollowDependencies(plan: Plan, events: seq<Event>, j: nat, d: NodeId) returns (i: nat)
    requires UniqueIds(plan.nodes) && Legal(plan, events) && j < |events| && events[j].kind == StartedEvent
    requires events[j].nodeId in Graph(plan.nodes) && d in Graph(plan.nodes)[events[j].nodeId]
    ensures i < j && events[i].nodeId == d && events[i].kind == CompletedEvent
  {
    LegalPrefix(plan, events, j + 1);
    var upto := events[..j + 1];
    assert upto[..|upto| - 1] == events[..j];
    var n: NodeSpec :| n.id == events[j].nodeId && MayRecord(plan, Replay(plan, events[..j]), n, StartedEvent);
    GraphAt(plan.nodes, n);
    i := CompletedHasEvent(plan, events[..j], d);
  }

  /** Sequence numbers count from one and times never decrease. */
  lemma {:induction false} SequencesAndTimes(plan: Plan, events: seq<Event>)
    requires Legal(plan, events)
    ensures forall i :: 0 <= i < |events| ==> events[i].sequence == i + 1
    ensures forall i, j :: 0 <= i < j < |events| ==> events[i].observedAt <= events[j].observedAt
  {
    if events != [] {
      SequencesAndTimes(plan, events[..|events| - 1]);
    }
  }

  /** No prefix of a legal journal has more running nodes than the plan allows. */
  lemma {:induction false} ParallelismBounded(plan: Plan, events: seq<Event>)
    requires ValidPlan(plan) && Legal(plan, events)
    ensures Count(plan.nodes, Replay(plan, events), Running) <= plan.limits.maxParallelNodes
  {
    if events == [] {
      InitialSums(plan.nodes, Replay(plan, []), CountOf(Running));
    } else {
      var before := events[..|events| - 1];
      var e := events[|events| - 1];
      ParallelismBounded(plan, before);
      ReplayKeys(plan, before);
      SumUpdate(plan.nodes, Replay(plan, before), CountOf(Running), e.nodeId, StateAfter(e.kind));
    }
  }

  lemma {:induction false} InitialSums(nodes: seq<NodeSpec>, states: States, w: NodeState -> nat)
    requires forall n :: n in nodes ==> n.id in states && states[n.id] == Pending
    ensures Sum(nodes, states, w) == |nodes| * w(Pending)
  {
    if nodes != [] {
      assert nodes[0] in nodes;
      InitialSums(nodes[1..], states, w);
    }
  }

  /** Recorded and still possible events never exceed two per node. */
  lemma {:induction false} BudgetHolds(plan: Plan, events: seq<Event>)
    requires ValidPlan(plan) && Legal(plan, events)
    ensures |events| + Sum(plan.nodes, Replay(plan, events), Slack) <= 2 * |plan.nodes|
  {
    if events == [] {
      InitialSums(plan.nodes, Replay(plan, []), Slack);
    } else {
      var before := events[..|events| - 1];
      var e := events[|events| - 1];
      BudgetHolds(plan, before);
      ReplayKeys(plan, before);
      SumUpdate(plan.nodes, Replay(plan, before), Slack, e.nodeId, StateAfter(e.kind));
    }
  }
}

/** The scheduler as a transition system on values, and the properties of all of its runs
    (crates/revoot-core/src/execution_graph.rs, lines 286-470). */
module ExecutionScheduling {
  import opened Wrappers
  import opened Sorting
  import opened ExecutionPlans
  import opened ExecutionJournals
  import opened Words

  datatype Fact =
    | RequestValidated | RepositoryInspected | DiffInspected | CandidateAdmitted
    | CandidateSuppressed | SummarySubmitted | OutcomeFinalized

  datatype Usage = Usage(modelTurns: u32, toolCalls: u32, admitted: u32, suppressed: u32) {
    /** `checked_add`, field by field. */
    function Plus(other: Usage): Option<Usage> {
      if modelTurns + other.modelTurns <= U32_MAX && toolCalls + other.toolCalls <= U32_MAX
         && admitted + other.admitted <= U32_MAX && suppressed + other.suppressed <= U32_MAX
      then Some(Usage(modelTurns + other.modelTurns, toolCalls + other.toolCalls,
                      admitted + other.admitted, suppressed + other.suppressed))
      else None
    }
  }

  const NoUsage := Usage(0, 0, 0, 0)

  datatype Contribution = Contribution(facts: set<Fact>, usage: Usage)

  datatype Outcome = Ok | Err(error: GraphError)

  datatype Run = Run(
    plan: Plan, states: States, events: seq<Event>, facts: set<Fact>, usage: Usage, lastObserved: nat)

  datatype Op =
    | Start(id: NodeId, now: nat)
    | Complete(id: NodeId, contribution: Contribution, now: nat)
    | Fail(id: NodeId, now: nat)
    | CancelRemaining(now: nat)

  function NewRun(plan: Plan, startedAt: nat): Run {
    Run(plan, Replay(plan, []), [], {}, NoUsage, startedAt)
  }

  predicate IsReady(n: NodeSpec, states: States) {
    n.id in states && states[n.id] == Pending && DependenciesDone(n, states)
  }

  /** `filter` on readiness, then `take`. */
  function ReadyIn(nodes: seq<NodeSpec>, states: States, capacity: nat): seq<NodeId> {
    if nodes == [] || capacity == 0 then []
    else if IsReady(nodes[0], states) then [nodes[0].id] + ReadyIn(nodes[1..], states, capacity - 1)
    else ReadyIn(nodes[1..], states, capacity)
  }

  function Capacity(r: Run): nat {
    var running := Count(r.plan.nodes, r.states, Running);
    if running <= r.plan.limits.maxParallelNodes then r.plan.limits.maxParallelNodes - running else 0
  }

  function ReadyNodes(r: Run): seq<NodeId> {
    ReadyIn(r.plan.nodes, r.states, Capacity(r))
  }

  /** The shared transition: clock, then budget, then identity. */
  function Transition(r: Run, id: NodeId, kind: EventKind, now: nat): (Run, Outcome) {
    if now < r.lastObserved then (r, Err(ClockRegression))
    else if |r.events| >= r.plan.limits.maxEvents then (r, Err(EventBudget))
    else if id !in r.states then (r, Err(UnknownNode))
    else
      (r.(states := r.states[id := StateAfter(kind)],
          lastObserved := now,
          events := r.events + [Event(|r.events| + 1, id, kind, now)]), Ok)
  }

  function ActiveIds(nodes: seq<NodeSpec>, states: States): seq<NodeId> {
    if nodes == [] then []
    else (if nodes[0].id in states && states[nodes[0].id].Active() then [nodes[0].id] else [])
         + ActiveIds(nodes[1..], states)
  }

  function CancelAll(r: Run, ids: seq<NodeId>, now: nat): (Run, Outcome)
    decreases |ids|
  {
    if ids == [] then (r, Ok)
    else
      var (r1, o) := Transition(r, ids[0], CancelledEvent, now);
      if o.Err? then (r1, o) else CancelAll(r1, ids[1..], now)
  }

  /** One public call: the state it leaves behind and what it returns. */
  function Apply(r: Run, op: Op): (Run, Outcome) {
    match op
    case Start(id, now) =>
      if id !in ReadyNodes(r) then (r, Err(NodeNotReady))
      else Transition(r, id, StartedEvent, now)
    case Complete(id, contribution, now) =>
      if !(id in r.states && r.states[id] == Running) then (r, Err(NodeNotRunning))
      else
        var usage := r.usage.Plus(contribution.usage);
        if usage.None? then (r, Err(UsageOverflow))
        else
          var (r1, o) := Transition(r, id, CompletedEvent, now);
          if o.Err? then (r1, o)
          else (r1.(usage := usage.value, facts := r1.facts + contribution.facts), Ok)
    case Fail(id, now) =>
      if !(id in r.states && r.states[id] == Running) then (r, Err(NodeNotRunning))
      else Transition(r, id, FailedEvent, now)
    case CancelRemaining(now) => CancelAll(r, ActiveIds(r.plan.nodes, r.states), now)
  }

  function ApplyAll(r: Run, ops: seq<Op>): Run
    decreases |ops|
  {
    if ops == [] then r else ApplyAll(Apply(r, ops[0]).0, ops[1..])
  }

  // ----- the invariant of every run

  /** The states are the replay of a legal journal that the clock has caught up with. */
  ghost predicate Reachable(r: Run) {
    && ValidPlan(r.plan)
    && Legal(r.plan, r.events)
    && r.states == Replay(r.plan, r.events)
    && (r.events != [] ==> r.events[|r.events| - 1].observedAt <= r.lastObserved)
  }

  lemma NewRunReachable(plan: Plan, startedAt: nat)
    requires ValidPlan(plan)
    ensures Reachable(NewRun(plan, startedAt))
  {
  }

  lemma SpecFor(plan: Plan, id: NodeId) returns (n: NodeSpec)
    requires id in Ids(plan.nodes)
    ensures n in plan.nodes && n.id == id
  {
    n :| n in plan.nodes && n.id == id;
  }

  /** A permitted transition is recorded unless the clock ran backwards: the budget and the node
      lookup cannot fail. */
  lemma TransitionSound(r: Run, n: NodeSpec, kind: EventKind, now: nat)
    requires Reachable(r) && MayRecord(r.plan, r.states, n, kind)
    ensures var (r1, o) := Transition(r, n.id, kind, now);
      && Reachable(r1) && r1.plan == r.plan && r1.facts == r.facts && r1.usage == r.usage
      && (now < r.lastObserved ==> o == Err(ClockRegression) && r1 == r)
      && (now >= r.lastObserved ==> o == Ok && r1.states == r.states[n.id := StateAfter(kind)]
                                    && r1.lastObserved == now)
  {
    BudgetHolds(r.plan, r.events);
    ReplayKeys(r.plan, r.events);
    SumUpdate(r.plan.nodes, r.states, Slack, n.id, StateAfter(kind));
    var (r1, o) := Transition(r, n.id, kind, now);
    if now >= r.lastObserved {
      assert r1.events[..|r1.events| - 1] == r.events;
    }
  }

  /** What is found and what is still to be found, one node later. */
  lemma {:induction false} ReadyInStep(nodes: seq<NodeSpec>, i: nat, states: States, left: nat, found: seq<NodeId>, all: seq<NodeId>)
    requires i < |nodes| && found + ReadyIn(nodes[i..], states, left) == all
    ensures var take := left > 0 && IsReady(nodes[i], states);
      (if take then found + [nodes[i].id] else found) + ReadyIn(nodes[i + 1..], states, if take then left - 1 else left) == all
  {
    assert nodes[i..][0] == nodes[i] && nodes[i..][1..] == nodes[i + 1..];
    if left > 0 && IsReady(nodes[i], states) {
      var rest := ReadyIn(nodes[i + 1..], states, left - 1);
      assert found + ([nodes[i].id] + rest) == (found + [nodes[i].id]) + rest;
    }
  }

  lemma {:induction false} ReadyInExact(nodes: seq<NodeSpec>, states: States, capacity: nat)
    requires UniqueIds(nodes)
    ensures |ReadyIn(nodes, states, capacity)| <= capacity
    ensures forall id :: id in ReadyIn(nodes, states, capacity) ==>
      exists n :: n in nodes && n.id == id && IsReady(n, states)
    ensures |ReadyIn(nodes, states, capacity)| < capacity ==>
      forall n :: n in nodes && IsReady(n, states) ==> n.id in ReadyIn(nodes, states, capacity)
  {
    if nodes != [] && capacity != 0 {
      var ready := IsReady(nodes[0], states);
      ReadyInExact(nodes[1..], states, if ready then capacity - 1 else capacity);
      assert nodes == [nodes[0]] + nodes[1..];
    }
  }

  /** The ready nodes are runnable and fill the parallelism cap unless there are no more of them. */
  lemma ReadyNodesExact(r: Run)
    requires Reachable(r)
    ensures var ready, running := ReadyNodes(r), Count(r.plan.nodes, r.states, Running);
      && (forall id :: id in ready ==> exists n :: n in r.plan.nodes && n.id == id && IsReady(n, r.states))
      && |ready| + running <= r.plan.limits.maxParallelNodes
      && (|ready| + running < r.plan.limits.maxParallelNodes ==>
            forall n :: n in r.plan.nodes && IsReady(n, r.states) ==> n.id in ready)
  {
    ParallelismBounded(r.plan, r.events);
    ReadyInExact(r.plan.nodes, r.states, Capacity(r));
  }

  /** A ready node may be started. */
  lemma ReadyMayStart(r: Run, id: NodeId) returns (n: NodeSpec)
    requires Reachable(r) && id in ReadyNodes(r)
    ensures n.id == id && MayRecord(r.plan, r.states, n, StartedEvent)
  {
    ReadyInExact(r.plan.nodes, r.states, Capacity(r));
    n :| n in r.plan.nodes && n.id == id && IsReady(n, r.states);
  }

  lemma {:induction false} ActiveIdsExact(nodes: seq<NodeSpec>, states: States)
    requires UniqueIds(nodes)
    ensures Distinct(ActiveIds(nodes, states))
    ensures forall id :: id in ActiveIds(nodes, states) <==> id in Ids(nodes) && id in states && states[id].Active()
  {
    if nodes != [] {
      var rest := nodes[1..];
      assert nodes == [nodes[0]] + rest;
      ActiveIdsExact(rest, states);
      assert Ids(nodes) == {nodes[0].id} + Ids(rest);
      forall m | m in rest ensures m.id != nodes[0].id {
        var j :| 0 <= j < |rest| && rest[j] == m;
        assert nodes[j + 1] == m;
      }
    }
  }

  /** Nodes that can be cancelled, each named once. */
  ghost predicate Cancellable(r: Run, ids: seq<NodeId>) {
    Reachable(r) && Distinct(ids) && forall id :: id in ids ==> id in r.states && r.states[id].Active()
  }

  lemma CancelOne(r: Run, ids: seq<NodeId>, now: nat)
    requires Cancellable(r, ids) && ids != []
    ensures var (r1, o) := Transition(r, ids[0], CancelledEvent, now);
      && (now < r.lastObserved ==> o == Err(ClockRegression) && r1 == r)
      && (now >= r.lastObserved ==>
            && o == Ok && Cancellable(r1, ids[1..]) && r1.plan == r.plan && r1.facts == r.facts && r1.usage == r.usage
            && r1.states == r.states[ids[0] := Cancelled] && r1.lastObserved == now)
  {
    ReplayKeys(r.plan, r.events);
    assert ids[0] in ids;
    var n := SpecFor(r.plan, ids[0]);
    TransitionSound(r, n, CancelledEvent, now);
    forall id | id in ids[1..] ensures id in ids && id != ids[0] {
      var j :| 1 <= j < |ids| && ids[j] == id;
    }
  }

  lemma {:induction false} CancelAllSound(r: Run, ids: seq<NodeId>, now: nat)
    requires Cancellable(r, ids)
    ensures var (r1, o) := CancelAll(r, ids, now);
      && Reachable(r1) && r1.plan == r.plan && r1.facts == r.facts && r1.usage == r.usage
      && (ids == [] || now < r.lastObserved ==> r1 == r)
      && (o == Ok <==> ids == [] || now >= r.lastObserved)
      && (o.Err? ==> o == Err(ClockRegression))
    decreases |ids|
  {
    if ids != [] {
      CancelOne(r, ids, now);
      if now >= r.lastObserved {
        CancelAllSound(Transition(r, ids[0], CancelledEvent, now).0, ids[1..], now);
      }
    }
  }

  /** Cancelling changes the named nodes and no others. */
  lemma {:induction false} CancelAllCancels(r: Run, ids: seq<NodeId>, now: nat)
    requires Cancellable(r, ids) && (ids == [] || now >= r.lastObserved)
    ensures var states := CancelAll(r, ids, now).0.states;
      && states.Keys == r.states.Keys
      && forall k :: k in r.states ==> states[k] == if k in ids then Cancelled else r.states[k]
    decreases |ids|
  {
    if ids != [] {
      CancelOne(r, ids, now);
      assert ids == [ids[0]] + ids[1..];
      CancelAllCancels(Transition(r, ids[0], CancelledEvent, now).0, ids[1..], now);
    }
  }

  /** What every public call guarantees: the invariant is kept, the journal only grows, an error
      changes nothing, and the event budget and the node lookup never fail. */
  ghost predicate StepSound(r: Run, r1: Run, o: Outcome) {
    && Reachable(r1) && r1.plan == r.plan
    && r.events <= r1.events
    && (o.Err? ==> r1 == r)
    && o != Err(EventBudget) && o != Err(UnknownNode)
  }

  lemma RunningNode(r: Run, id: NodeId) returns (n: NodeSpec)
    requires Reachable(r) && id in r.states && r.states[id] == Running
    ensures n in r.plan.nodes && n.id == id
  {
    ReplayKeys(r.plan, r.events);
    n := SpecFor(r.plan, id);
  }

  lemma CompleteSound(r: Run, id: NodeId, c: Contribution, now: nat)
    requires Reachable(r)
    ensures StepSound(r, Apply(r, Complete(id, c, now)).0, Apply(r, Complete(id, c, now)).1)
  {
    if id in r.states && r.states[id] == Running {
      var n := RunningNode(r, id);
      TransitionSound(r, n, CompletedEvent, now);
    }
  }

  lemma FailSound(r: Run, id: NodeId, now: nat)
    requires Reachable(r)
    ensures StepSound(r, Apply(r, Fail(id, now)).0, Apply(r, Fail(id, now)).1)
  {
    if id in r.states && r.states[id] == Running {
      var n := RunningNode(r, id);
      TransitionSound(r, n, FailedEvent, now);
    }
  }

  lemma CancelRemainingSound(r: Run, now: nat)
    requires Reachable(r)
    ensures StepSound(r, Apply(r, CancelRemaining(now)).0, Apply(r, CancelRemaining(now)).1)
  {
    ReplayKeys(r.plan, r.events);
    var ids := ActiveIds(r.plan.nodes, r.states);
    ActiveIdsExact(r.plan.nodes, r.states);
    CancelAllSound(r, ids, now);
    CancelAllAppends(r, ids, now);
  }

  /** Every public call is sound. */
  lemma ApplySound(r: Run, op: Op)
    requires Reachable(r)
    ensures StepSound(r, Apply(r, op).0, Apply(r, op).1)
  {
    match op
    case Start(id, now) =>
      if id in ReadyNodes(r) {
        var n := ReadyMayStart(r, id);
        TransitionSound(r, n, StartedEvent, now);
      }
    case Complete(id, contribution, now) => CompleteSound(r, id, contribution, now);
    case Fail(id, now) => FailSound(r, id, now);
    case CancelRemaining(now) => CancelRemainingSound(r, now);
  }

  lemma {:induction false} CancelAllAppends(r: Run, ids: seq<NodeId>, now: nat)
    ensures r.events <= CancelAll(r, ids, now).0.events
    decreases |ids|
  {
    if ids != [] {
      var (r1, o) := Transition(r, ids[0], CancelledEvent, now);
      if o == Ok {
        CancelAllAppends(r1, ids[1..], now);
      }
    }
  }

  /** Whole-run safety: whatever calls are made on an accepted plan, in whatever order and with
      whatever clock readings, the state is the replay of a legal, append-only journal that never
      exceeds the event budget. */
  lemma {:induction false} RunsAreSafe(r: Run, ops: seq<Op>)
    requires Reachable(r)
    ensures Reachable(ApplyAll(r, ops)) && ApplyAll(r, ops).plan == r.plan
    ensures r.events <= ApplyAll(r, ops).events
    ensures |ApplyAll(r, ops).events| <= 2 * |r.plan.nodes| <= r.plan.limits.maxEvents
    decreases |ops|
  {
    if ops != [] {
      ApplySound(r, ops[0]);
      RunsAreSafe(Apply(r, ops[0]).0, ops[1..]);
    }
    BudgetHolds(r.plan, r.events);
  }

  /** `cancel_remaining` fails exactly when the clock ran backwards with work left, and then
      changes nothing; otherwise no node is left pending or running and finished nodes keep their
      state. */
  lemma CancellationIsTotal(r: Run, now: nat)
    requires Reachable(r)
    ensures var (r1, o) := Apply(r, CancelRemaining(now));
      && (o.Err? <==> now < r.lastObserved && exists k :: k in r.states && r.states[k].Active())
      && (o.Err? ==> o == Err(ClockRegression) && r1 == r)
      && (o == Ok ==>
            && r1.states.Keys == r.states.Keys
            && forall k :: k in r.states ==>
                 r1.states[k] == if r.states[k].Active() then Cancelled else r.states[k])
  {
    ReplayKeys(r.plan, r.events);
    var ids := ActiveIds(r.plan.nodes, r.states);
    ActiveIdsExact(r.plan.nodes, r.states);
    CancelAllSound(r, ids, now);
    if ids == [] || now >= r.lastObserved {
      CancelAllCancels(r, ids, now);
    }
    if ids != [] {
      assert ids[0] in ids;
    }
  }

  // ----- progress

  ghost predicate Unspoiled(r: Run) {
    forall k :: k in r.states ==> r.states[k] != Failed && r.states[k] != Cancelled
  }

  predicate IsComplete(r: Run) {
    forall k :: k in r.states ==> r.states[k] == Completed
  }

  lemma {:induction false} FirstUnfinishedPosition(order: seq<NodeId>, states: States) returns (i: nat)
    requires forall id :: id in order ==> id in states
    requires exists id :: id in order && states[id] != Completed
    ensures i < |order| && states[order[i]] != Completed
    ensures forall j :: 0 <= j < i ==> states[order[j]] == Completed
  {
    if states[order[0]] != Completed {
      i := 0;
    } else {
      assert order == [order[0]] + order[1..];
      var k := FirstUnfinishedPosition(order[1..], states);
      i := k + 1;
      assert forall j :: 1 <= j < i ==> order[j] == order[1..][j - 1];
    }
  }

  /** In a topological order, the first node that is not completed has all its dependencies
      completed. */
  lemma FirstUnfinished(r: Run, order: seq<NodeId>) returns (n: NodeSpec)
    requires Reachable(r) && Unspoiled(r) && !IsComplete(r)
    requires IsTopological(Graph(r.plan.nodes), order)
    ensures n in r.plan.nodes && n.id in r.states && r.states[n.id].Active() && DependenciesDone(n, r.states)
  {
    ReplayKeys(r.plan, r.events);
    var g := Graph(r.plan.nodes);
    assert forall id :: id in order <==> id in SetOf(order);
    var i := FirstUnfinishedPosition(order, r.states);
    DependenciesFirstAt(g, order, i);
    var at := NodeOf(r.plan.nodes, order[i]);
    n := r.plan.nodes[at];
    forall d | d in n.dependencies ensures d in r.states && r.states[d] == Completed {
      assert d in SetOf(order[..i]);
      var j :| 0 <= j < i && order[j] == d;
    }
  }

  /** No deadlock: unless a node failed or was cancelled, an unfinished run has a running node or
      a ready one. */
  lemma NoDeadlock(r: Run)
    requires Reachable(r) && Unspoiled(r) && !IsComplete(r)
    ensures (exists k :: k in r.states && r.states[k] == Running) || ReadyNodes(r) != []
  {
    ReplayKeys(r.plan, r.events);
    LinkedIsClosed(r.plan.nodes);
    var order := PlanHasTopologicalOrder(Graph(r.plan.nodes));
    var n := FirstUnfinished(r, order);
    if forall k :: k in r.states ==> r.states[k] != Running {
      assert IsReady(n, r.states);
      NobodyRuns(r.plan.nodes, r.states);
      ReadyInExact(r.plan.nodes, r.states, Capacity(r));
    }
  }

  lemma {:induction false} NobodyRuns(nodes: seq<NodeSpec>, states: States)
    requires forall k :: k in states ==> states[k] != Running
    ensures Count(nodes, states, Running) == 0
  {
    if nodes != [] {
      NobodyRuns(nodes[1..], states);
    }
  }

  /** All calls succeed. */
  ghost predicate Accepted(r: Run, ops: seq<Op>)
    decreases |ops|
  {
    ops == [] || (Apply(r, ops[0]).1 == Ok && Accepted(Apply(r, ops[0]).0, ops[1..]))
  }

  /** A running node can be completed at once, without facts or usage. */
  lemma CompletionAccepted(r: Run, id: NodeId) returns (op: Op)
    requires Reachable(r) && id in r.states && r.states[id] == Running
    ensures op.Complete? && Apply(r, op).1 == Ok && Apply(r, op).0.states == r.states[id := Completed]
  {
    ReplayKeys(r.plan, r.events);
    var n := SpecFor(r.plan, id);
    op := Complete(id, Contribution({}, NoUsage), r.lastObserved);
    TransitionSound(r, n, CompletedEvent, r.lastObserved);
  }

  lemma CompletionStep(r: Run, id: NodeId) returns (op: Op)
    requires Reachable(r) && Unspoiled(r)
    requires id in r.states && r.states[id] == Running
    ensures op.Complete? && Apply(r, op).1 == Ok && Unspoiled(Apply(r, op).0)
    ensures Sum(r.plan.nodes, Apply(r, op).0.states, Slack) < Sum(r.plan.nodes, r.states, Slack)
  {
    ReplayKeys(r.plan, r.events);
    op := CompletionAccepted(r, id);
    SumUpdate(r.plan.nodes, r.states, Slack, id, Completed);
  }

  lemma StartStep(r: Run, id: NodeId) returns (op: Op)
    requires Reachable(r) && Unspoiled(r)
    requires id in ReadyNodes(r)
    ensures op.Start? && Apply(r, op).1 == Ok && Unspoiled(Apply(r, op).0)
    ensures Sum(r.plan.nodes, Apply(r, op).0.states, Slack) < Sum(r.plan.nodes, r.states, Slack)
  {
    var n := ReadyMayStart(r, id);
    op := Start(id, r.lastObserved);
    TransitionSound(r, n, StartedEvent, r.lastObserved);
    SumUpdate(r.plan.nodes, r.states, Slack, id, Running);
  }

  lemma ProgressStep(r: Run) returns (op: Op)
    requires Reachable(r) && Unspoiled(r) && !IsComplete(r)
    ensures op.Start? || op.Complete?
    ensures Apply(r, op).1 == Ok && Reachable(Apply(r, op).0) && Unspoiled(Apply(r, op).0)
    ensures Apply(r, op).0.plan == r.plan
    ensures Sum(r.plan.nodes, Apply(r, op).0.states, Slack) < Sum(r.plan.nodes, r.states, Slack)
  {
    NoDeadlock(r);
    if exists k :: k in r.states && r.states[k] == Running {
      var k :| k in r.states && r.states[k] == Running;
      op := CompletionStep(r, k);
    } else {
      op := StartStep(r, ReadyNodes(r)[0]);
    }
    ApplySound(r, op);
  }

  lemma {:induction false} PrependOp(r: Run, op: Op, rest: seq<Op>)
    requires Apply(r, op).1 == Ok && Accepted(Apply(r, op).0, rest)
    ensures Accepted(r, [op] + rest) && ApplyAll(r, [op] + rest) == ApplyAll(Apply(r, op).0, rest)
  {
    assert ([op] + rest)[1..] == rest;
  }

  /** Every run without a failure or cancellation can be driven to completion by accepted start
      and complete calls alone. */
  lemma {:induction false} CanAlwaysComplete(r: Run) returns (ops: seq<Op>)
    requires Reachable(r) && Unspoiled(r)
    ensures forall i :: 0 <= i < |ops| ==> ops[i].Start? || ops[i].Complete?
    ensures Accepted(r, ops) && IsComplete(ApplyAll(r, ops))
    decreases Sum(r.plan.nodes, r.states, Slack)
  {
    if IsComplete(r) {
      ops := [];
    } else {
      var op := ProgressStep(r);
      var rest := CanAlwaysComplete(Apply(r, op).0);
      PrependOp(r, op, rest);
      ops := [op] + rest;
    }
  }

  lemma {:induction false} StatesPartition(nodes: seq<NodeSpec>, states: States)
    requires forall n :: n in nodes ==> n.id in states
    ensures |nodes| == Count(nodes, states, Pending) + Count(nodes, states, Running)
                       + Count(nodes, states, Completed) + Count(nodes, states, Failed) + Count(nodes, states, Cancelled)
  {
    if nodes != [] {
      assert nodes[0] in nodes;
      StatesPartition(nodes[1..], states);
    }
  }

  /** The fewest and the most events behind a node in a given state. */
  const Fewest: NodeState -> nat := (s: NodeState) => if s.Pending? then 0 else if s.Running? || s.Cancelled? then 1 else 2
  const Most: NodeState -> nat := (s: NodeState) => if s.Pending? then 0 else if s.Running? then 1 else 2

  lemma {:induction false} WeightsAreCounts(nodes: seq<NodeSpec>, states: States)
    ensures Sum(nodes, states, Fewest) ==
      2 * (Count(nodes, states, Completed) + Count(nodes, states, Failed)) + Count(nodes, states, Running) + Count(nodes, states, Cancelled)
    ensures Sum(nodes, states, Most) == Sum(nodes, states, Fewest) + Count(nodes, states, Cancelled)
  {
    if nodes != [] {
      WeightsAreCounts(nodes[1..], states);
    }
  }

  lemma {:induction false} EventWeights(plan: Plan, events: seq<Event>)
    requires ValidPlan(plan) && Legal(plan, events)
    ensures Sum(plan.nodes, Replay(plan, events), Fewest) <= |events| <= Sum(plan.nodes, Replay(plan, events), Most)
  {
    if events == [] {
      InitialSums(plan.nodes, Replay(plan, []), Fewest);
      InitialSums(plan.nodes, Replay(plan, []), Most);
    } else {
      var before, e := events[..|events| - 1], events[|events| - 1];
      EventWeights(plan, before);
      LastTransition(plan, events);
      var states := Replay(plan, before);
      SumUpdate(plan.nodes, states, Fewest, e.nodeId, StateAfter(e.kind));
      SumUpdate(plan.nodes, states, Most, e.nodeId, StateAfter(e.kind));
    }
  }

  /** The last event of a legal journal moved its node on: one event more, one step further. */
  lemma {:induction false} LastTransition(plan: Plan, events: seq<Event>)
    requires Legal(plan, events) && events != []
    ensures var before, e := events[..|events| - 1], events[|events| - 1];
      && e.nodeId in Ids(plan.nodes) && e.nodeId in Replay(plan, before)
      && var from, to := Replay(plan, before)[e.nodeId], StateAfter(e.kind);
         && Fewest(from) <= Fewest(to) <= Fewest(from) + 1
         && Most(from) + 1 <= Most(to)
  {
    ReplayKeys(plan, events[..|events| - 1]);
  }

  /** The summary of a run agrees with its journal: every finished node left two events, every running
      one a single event, and a cancelled one either one or two. */
  lemma {:induction false} EventsPerNode(plan: Plan, events: seq<Event>)
    requires ValidPlan(plan) && Legal(plan, events)
    ensures var s := Replay(plan, events);
      var finished := Count(plan.nodes, s, Completed) + Count(plan.nodes, s, Failed);
      var running, cancelled := Count(plan.nodes, s, Running), Count(plan.nodes, s, Cancelled);
      2 * finished + running + cancelled <= |events| <= 2 * finished + running + 2 * cancelled
  {
    EventWeights(plan, events);
    WeightsAreCounts(plan.nodes, Replay(plan, events));
  }

  // ----- the summary

  datatype Summary = Summary(nodes: nat, completed: nat, failed: nat, cancelled: nat, events: nat, facts: set<Fact>, usage: Usage)

  function SummaryOf(r: Run): Summary {
    Summary(|r.plan.nodes|, Count(r.plan.nodes, r.states, Completed), Count(r.plan.nodes, r.states, Failed),
            Count(r.plan.nodes, r.states, Cancelled), |r.events|, r.facts, r.usage)
  }

  /** A run is complete exactly when its summary has as many completed nodes as nodes. */
  lemma {:induction false} CompleteCounts(nodes: seq<NodeSpec>, states: States)
    requires forall n :: n in nodes ==> n.id in states
    ensures Count(nodes, states, Completed) <= |nodes|
    ensures Count(nodes, states, Completed) == |nodes| <==> forall n :: n in nodes ==> states[n.id] == Completed
  {
    if nodes != [] {
      assert nodes == [nodes[0]] + nodes[1..];
      CompleteCounts(nodes[1..], states);
    }
  }

  lemma SummaryTellsCompletion(r: Run)
    requires Reachable(r)
    ensures SummaryOf(r).completed == SummaryOf(r).nodes <==> IsComplete(r)
  {
    ReplayKeys(r.plan, r.events);
    CompleteCounts(r.plan.nodes, r.states);
    if SummaryOf(r).completed == SummaryOf(r).nodes {
      forall k | k in r.states ensures r.states[k] == Completed {
        var n := SpecFor(r.plan, k);
      }
    }
  }
}

/** The mutable scheduler object, proved against the transition system
    (crates/revoot-core/src/execution_graph.rs, lines 277-480). */
module ExecutionGraphs {
  import opened Wrappers
  import opened ExecutionPlans
  import opened ExecutionJournals
  import opened ExecutionScheduling
  import ExecutionLaws

  class ExecutionGraph {
    var plan: Plan
    var states: States
    var events: seq<Event>
    var facts: set<Fact>
    var usage: Usage
    var lastObserved: nat

    ghost function Current(): Run
      reads this
    {
      Run(plan, states, events, facts, usage, lastObserved)
    }

    ghost predicate Valid()
      reads this
    {
      Reachable(Current())
    }

    constructor (plan: Plan, startedAt: nat)
      requires ValidPlan(plan)
      ensures Valid() && Current() == NewRun(plan, startedAt)
      ensures this.plan == plan && lastObserved == startedAt && events == [] && facts == {} && usage == Usage(0, 0, 0, 0)
      ensures states.Keys == Ids(plan.nodes) && forall k :: k in states ==> states[k] == Pending
    {
      this.plan := plan;
      states := map n | n in plan.nodes :: n.id := Pending;
      events := [];
      facts := {};
      usage := NoUsage;
      lastObserved := startedAt;
      new;
      NewRunReachable(plan, startedAt);
    }

    /** Runnable nodes: in key order, all of them or as many as the parallelism cap leaves room
        for. */
    method ReadyNodes() returns (ready: seq<NodeId>)
      requires Valid()
      ensures ready == ExecutionScheduling.ReadyNodes(Current())
    {
      var left := Capacity(Run(plan, states, events, facts, usage, lastObserved));
      ghost var expected := ReadyIn(plan.nodes, states, left);
      ready := [];
      assert plan.nodes[0..] == plan.nodes;
      for i := 0 to |plan.nodes|
        invariant ready + ReadyIn(plan.nodes[i..], states, left) == expected
      {
        var take := left > 0 && IsReady(plan.nodes[i], states);
        ReadyInStep(plan.nodes, i, states, left, ready, expected);
        if take {
          ready := ready + [plan.nodes[i].id];
          left := left - 1;
        }
      }
    }

    method Transition(id: NodeId, kind: EventKind, now: nat) returns (o: Outcome)
      modifies this
      ensures (Current(), o) == ExecutionScheduling.Transition(old(Current()), id, kind, now)
    {
      if now < lastObserved {
        return Err(ClockRegression);
      }
      if |events| >= plan.limits.maxEvents {
        return Err(EventBudget);
      }
      if id !in states {
        return Err(UnknownNode);
      }
      states := states[id := StateAfter(kind)];
      lastObserved := now;
      events := events + [Event(|events| + 1, id, kind, now)];
      return Ok;
    }

    method Start(id: NodeId, now: nat) returns (o: Outcome)
      requires Valid()
      modifies this
      ensures Valid() && (Current(), o) == Apply(old(Current()), Op.Start(id, now))
      ensures ExecutionLaws.Lawful(old(Current()), Op.Start(id, now), Current(), o)
    {
      ApplySound(Current(), Op.Start(id, now));
      ExecutionLaws.ApplyIsLawful(Current(), Op.Start(id, now));
      var ready := ReadyNodes();
      if id !in ready {
        return Err(NodeNotReady);
      }
      o := Transition(id, StartedEvent, now);
    }

    method Complete(id: NodeId, contribution: Contribution, now: nat) returns (o: Outcome)
      requires Valid()
      modifies this
      ensures Valid() && (Current(), o) == Apply(old(Current()), Op.Complete(id, contribution, now))
      ensures ExecutionLaws.Lawful(old(Current()), Op.Complete(id, contribution, now), Current(), o)
    {
      ApplySound(Current(), Op.Complete(id, contribution, now));
      ExecutionLaws.ApplyIsLawful(Current(), Op.Complete(id, contribution, now));
      if id !in states || states[id] != Running {
        return Err(NodeNotRunning);
      }
      var total := usage.Plus(contribution.usage);
      if total.None? {
        return Err(UsageOverflow);
      }
      o := Transition(id, CompletedEvent, now);
      if o == Ok {
        usage := total.value;
        facts := facts + contribution.facts;
      }
    }

    method Fail(id: NodeId, now: nat) returns (o: Outcome)
      requires Valid()
      modifies this
      ensures Valid() && (Current(), o) == Apply(old(Current()), Op.Fail(id, now))
      ensures ExecutionLaws.Lawful(old(Current()), Op.Fail(id, now), Current(), o)
    {
      ApplySound(Current(), Op.Fail(id, now));
      ExecutionLaws.ApplyIsLawful(Current(), Op.Fail(id, now));
      if id !in states || states[id] != Running {
        return Err(NodeNotRunning);
      }
      o := Transition(id, FailedEvent, now);
    }

    method CancelRemaining(now: nat) returns (o: Outcome)
      requires Valid()
      modifies this
      ensures Valid() && (Current(), o) == Apply(old(Current()), Op.CancelRemaining(now))
      ensures ExecutionLaws.Lawful(old(Current()), Op.CancelRemaining(now), Current(), o)
    {
      ApplySound(Current(), Op.CancelRemaining(now));
      var ids := ActiveIds(plan.nodes, states);
      ghost var before := Current();
      for i := 0 to |ids|
        invariant CancelAll(Current(), ids[i..], now) == CancelAll(before, ids, now)
      {
        assert ids[i..][1..] == ids[i + 1..];
        o := Transition(ids[i], CancelledEvent, now);
        if o.Err? {
          ExecutionLaws.ApplyIsLawful(before, Op.CancelRemaining(now));
          return;
        }
      }
      o := Ok;
      ExecutionLaws.ApplyIsLawful(before, Op.CancelRemaining(now));
    }

    method Summarize() returns (s: Summary)
      requires Valid()
      ensures s == SummaryOf(Current())
      ensures s.completed == s.nodes <==> IsComplete(Current())
      ensures s.nodes == |states| && s.events == |events| && s.facts == facts && s.usage == usage
      ensures s.completed == |ExecutionLaws.InState(Current(), Completed)|
      ensures s.failed == |ExecutionLaws.InState(Current(), Failed)|
      ensures s.cancelled == |ExecutionLaws.InState(Current(), Cancelled)|
    {
      SummaryTellsCompletion(Current());
      ExecutionLaws.SummaryCounts(Current());
      s := SummaryOf(Run(plan, states, events, facts, usage, lastObserved));
    }
  }
}
