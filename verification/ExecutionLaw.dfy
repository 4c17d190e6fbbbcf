/** What every call of the scheduler does, told from its outcome, and what follows for whole runs
    (crates/revoot-core/src/execution_graph.rs, lines 224-246 and 292-491). */
module ExecutionLaws {
  import opened Wrappers
  import opened Words
  import opened Sorting
  import opened Sequences
  import opened ExecutionPlans
  import opened ExecutionJournals
  import opened ExecutionScheduling
  import Strings

  // ----- which nodes may start

  /** Waiting, with every dependency completed. */
  ghost predicate Runnable(r: Run, n: NodeSpec) {
    && n in r.plan.nodes && n.id in r.states && r.states[n.id] == Pending
    && forall d :: d in n.dependencies ==> d in r.states && r.states[d] == Completed
  }

  ghost function RunnableBefore(r: Run, id: NodeId): set<NodeSpec> {
    set n | n in r.plan.nodes && Runnable(r, n) && Strings.Less(n.id, id)
  }

  ghost function RunningNodes(r: Run): set<NodeId> {
    set k | k in r.states && r.states[k] == Running
  }

  /** A runnable node may start unless the running nodes and the runnable ones with smaller identities
      fill the parallelism cap. */
  ghost predicate Startable(r: Run, id: NodeId) {
    && (exists n :: Runnable(r, n) && n.id == id)
    && |RunningNodes(r)| + |RunnableBefore(r, id)| < r.plan.limits.maxParallelNodes
  }

  /** One node changed its state, and one event records it. */
  ghost predicate Moved(r: Run, r1: Run, id: NodeId, state: NodeState, kind: EventKind, now: nat) {
    && r1.plan == r.plan
    && r1.states == r.states[id := state]
    && r1.events == r.events + [Event(|r.events| + 1, id, kind, now)]
    && r1.lastObserved == now
  }

  ghost predicate Overflows(a: Usage, b: Usage) {
    || a.modelTurns + b.modelTurns > U32_MAX || a.toolCalls + b.toolCalls > U32_MAX
    || a.admitted + b.admitted > U32_MAX || a.suppressed + b.suppressed > U32_MAX
  }

  ghost predicate StartedRightly(r: Run, id: NodeId, now: nat, r1: Run, o: Outcome) {
    match o
    case Ok =>
      Startable(r, id) && now >= r.lastObserved && Moved(r, r1, id, Running, StartedEvent, now)
      && r1.facts == r.facts && r1.usage == r.usage
    case Err(NodeNotReady) => !Startable(r, id) && r1 == r
    case Err(ClockRegression) => Startable(r, id) && now < r.lastObserved && r1 == r
    case _ => false
  }

  ghost predicate CompletedRightly(r: Run, id: NodeId, c: Contribution, now: nat, r1: Run, o: Outcome) {
    var running := id in r.states && r.states[id] == Running;
    match o
    case Ok =>
      && running && !Overflows(r.usage, c.usage) && now >= r.lastObserved
      && Moved(r, r1, id, Completed, CompletedEvent, now)
      && (forall f :: f in r1.facts <==> f in r.facts || f in c.facts)
      && r1.usage.modelTurns == r.usage.modelTurns + c.usage.modelTurns
      && r1.usage.toolCalls == r.usage.toolCalls + c.usage.toolCalls
      && r1.usage.admitted == r.usage.admitted + c.usage.admitted
      && r1.usage.suppressed == r.usage.suppressed + c.usage.suppressed
    case Err(NodeNotRunning) => !running && r1 == r
    case Err(UsageOverflow) => running && Overflows(r.usage, c.usage) && r1 == r
    case Err(ClockRegression) => running && !Overflows(r.usage, c.usage) && now < r.lastObserved && r1 == r
    case _ => false
  }

  ghost predicate FailedRightly(r: Run, id: NodeId, now: nat, r1: Run, o: Outcome) {
    var running := id in r.states && r.states[id] == Running;
    match o
    case Ok =>
      running && now >= r.lastObserved && Moved(r, r1, id, Failed, FailedEvent, now)
      && r1.facts == r.facts && r1.usage == r.usage
    case Err(NodeNotRunning) => !running && r1 == r
    case Err(ClockRegression) => running && now < r.lastObserved && r1 == r
    case _ => false
  }

  /** One Cancelled event for each node that was waiting or running, in the order of their identities. */
  ghost predicate Cancellations(r: Run, added: seq<Event>, now: nat) {
    && (forall i :: 0 <= i < |added| ==>
          added[i].kind == CancelledEvent && added[i].observedAt == now && added[i].sequence == |r.events| + i + 1)
    && (forall i, j :: 0 <= i < j < |added| ==> Strings.Less(added[i].nodeId, added[j].nodeId))
    && (forall k :: k in r.states && (r.states[k] == Pending || r.states[k] == Running) <==>
          exists i :: 0 <= i < |added| && added[i].nodeId == k)
  }

  /** Some node waits or runs. */
  ghost predicate Unfinished(r: Run) {
    exists k :: k in r.states && (r.states[k] == Pending || r.states[k] == Running)
  }

  ghost predicate StatesCancelled(r: Run, r1: Run) {
    r1.states.Keys == r.states.Keys && forall k :: k in r.states ==>
      r1.states[k] == if r.states[k] == Pending || r.states[k] == Running then Cancelled else r.states[k]
  }

  /** Apart from the states. */
  ghost predicate CancellationRecorded(r: Run, r1: Run, now: nat) {
    && r1.plan == r.plan && r1.facts == r.facts && r1.usage == r.usage
    && r1.lastObserved == (if Unfinished(r) then now else r.lastObserved)
    && r.events <= r1.events && Cancellations(r, r1.events[|r.events|..], now)
  }

  ghost predicate CancelledRightly(r: Run, now: nat, r1: Run, o: Outcome) {
    match o
    case Ok => (Unfinished(r) ==> now >= r.lastObserved) && StatesCancelled(r, r1) && CancellationRecorded(r, r1, now)
    case Err(ClockRegression) => Unfinished(r) && now < r.lastObserved && r1 == r
    case _ => false
  }

  /** Every outcome, with what it says about the run before the call and with the run behind it. For each
      call the outcomes exclude each other. */
  ghost predicate Lawful(r: Run, op: Op, r1: Run, o: Outcome) {
    match op
    case Start(id, now) => StartedRightly(r, id, now, r1, o)
    case Complete(id, c, now) => CompletedRightly(r, id, c, now, r1, o)
    case Fail(id, now) => FailedRightly(r, id, now, r1, o)
    case CancelRemaining(now) => CancelledRightly(r, now, r1, o)
  }

  // ----- counting

  ghost function IdsInState(nodes: seq<NodeSpec>, states: States, state: NodeState): set<NodeId> {
    set n | n in nodes && n.id in states && states[n.id] == state :: n.id
  }

  lemma IdsInStateStep(nodes: seq<NodeSpec>, states: States, state: NodeState)
    requires UniqueIds(nodes) && nodes != []
    ensures nodes[0].id !in IdsInState(nodes[1..], states, state)
    ensures IdsInState(nodes, states, state)
         == IdsInState(nodes[1..], states, state) + if nodes[0].id in states && states[nodes[0].id] == state then {nodes[0].id} else {}
  {
    FirstIsNew(nodes);
    assert forall n :: n in nodes <==> n == nodes[0] || n in nodes[1..] by {
      assert nodes == [nodes[0]] + nodes[1..];
    }
  }

  /** Counting a state over the nodes is counting the nodes in that state. */
  lemma {:induction false} CountIsCardinality(nodes: seq<NodeSpec>, states: States, state: NodeState)
    requires UniqueIds(nodes)
    ensures Count(nodes, states, state) == |IdsInState(nodes, states, state)|
  {
    if nodes != [] {
      FirstIsNew(nodes);
      IdsInStateStep(nodes, states, state);
      CountIsCardinality(nodes[1..], states, state);
    }
  }

  lemma FirstIsNew(nodes: seq<NodeSpec>)
    requires UniqueIds(nodes) && nodes != []
    ensures nodes[0].id !in Ids(nodes[1..]) && UniqueIds(nodes[1..])
  {
    forall m | m in nodes[1..] ensures m.id != nodes[0].id {
      var j :| 0 <= j < |nodes[1..]| && nodes[1..][j] == m;
      assert nodes[j + 1] == m;
    }
  }

  lemma RunningIsCounted(r: Run)
    requires Reachable(r)
    ensures Count(r.plan.nodes, r.states, Running) == |RunningNodes(r)|
  {
    ReplayKeys(r.plan, r.events);
    CountIsCardinality(r.plan.nodes, r.states, Running);
    assert RunningNodes(r) == IdsInState(r.plan.nodes, r.states, Running);
  }

  /** What the summary counts. */
  ghost function InState(r: Run, state: NodeState): set<NodeId> {
    set k | k in r.states && r.states[k] == state
  }

  lemma SummaryCounts(r: Run)
    requires Reachable(r)
    ensures var s := SummaryOf(r);
      && s.nodes == |r.states| && s.events == |r.events| && s.facts == r.facts && s.usage == r.usage
      && s.completed == |InState(r, Completed)| && s.failed == |InState(r, Failed)| && s.cancelled == |InState(r, Cancelled)|
  {
    ReplayKeys(r.plan, r.events);
    KeyCount(r.plan.nodes);
    assert |r.states| == |r.states.Keys|;
    forall state ensures Count(r.plan.nodes, r.states, state) == |InState(r, state)| {
      CountIsCardinality(r.plan.nodes, r.states, state);
      assert InState(r, state) == IdsInState(r.plan.nodes, r.states, state);
    }
  }

  // ----- starting

  /** The ready ones among the first nodes. */
  ghost function ReadySet(nodes: seq<NodeSpec>, states: States): set<NodeSpec> {
    set n | n in nodes && IsReady(n, states)
  }

  /** A node is among the first `capacity` ready ones exactly when fewer ready ones stand before it. */
  lemma {:induction false} ReadyInRank(nodes: seq<NodeSpec>, states: States, capacity: nat, i: nat)
    requires UniqueIds(nodes) && i < |nodes|
    ensures nodes[i].id in ReadyIn(nodes, states, capacity) <==>
      IsReady(nodes[i], states) && |ReadySet(nodes[..i], states)| < capacity
  {
    var rest := nodes[1..];
    var ready := IsReady(nodes[0], states);
    FirstIsNew(nodes);
    if capacity == 0 {
    } else if i == 0 {
      ReadyInExact(rest, states, if ready then capacity - 1 else capacity);
      assert nodes[..0] == [] && ReadySet([], states) == {};
    } else {
      var left := if ready then capacity - 1 else capacity;
      ReadyInRank(rest, states, left, i - 1);
      assert nodes[..i] == [nodes[0]] + rest[..i - 1];
      var s, t := ReadySet(rest[..i - 1], states), ReadySet(nodes[..i], states);
      assert nodes[0] !in s;
      assert t == if ready then s + {nodes[0]} else s;
      assert nodes[i] in rest && nodes[i].id != nodes[0].id;
    }
  }

  /** In key order, the nodes before a node are those with smaller identities. */
  lemma SmallerIsBefore(nodes: seq<NodeSpec>, i: nat, j: nat)
    requires StrictlySorted(ById, nodes) && UniqueIds(nodes) && i < |nodes| && j < |nodes|
    ensures Strings.Less(nodes[j].id, nodes[i].id) <==> j < i
    ensures nodes[j] in nodes[..i] <==> j < i
  {
    if j < i {
      assert ById(nodes[j], nodes[i]) && nodes[..i][j] == nodes[j];
    } else {
      Strings.LessIrreflexive(nodes[i].id);
      if j > i {
        assert ById(nodes[i], nodes[j]);
        Strings.LessAsymmetric(nodes[i].id, nodes[j].id);
      }
      assert forall k :: 0 <= k < i ==> nodes[k].id != nodes[j].id;
    }
  }

  lemma RunnableBeforeIsPrefix(r: Run, i: nat)
    requires Reachable(r) && i < |r.plan.nodes|
    ensures RunnableBefore(r, r.plan.nodes[i].id) == ReadySet(r.plan.nodes[..i], r.states)
  {
    forall n | n in r.plan.nodes
      ensures n in RunnableBefore(r, r.plan.nodes[i].id) <==> n in ReadySet(r.plan.nodes[..i], r.states)
    {
      var j :| 0 <= j < |r.plan.nodes| && r.plan.nodes[j] == n;
      SmallerIsBefore(r.plan.nodes, i, j);
    }
    assert forall n :: n in r.plan.nodes[..i] ==> n in r.plan.nodes;
  }

  lemma ReadyIsStartable(r: Run, id: NodeId)
    requires Reachable(r)
    ensures id in ReadyNodes(r) <==> Startable(r, id)
  {
    var nodes := r.plan.nodes;
    RunningIsCounted(r);
    ParallelismBounded(r.plan, r.events);
    ReadyInExact(nodes, r.states, Capacity(r));
    if n :| n in nodes && n.id == id {
      var i :| 0 <= i < |nodes| && nodes[i] == n;
      ReadyInRank(nodes, r.states, Capacity(r), i);
      RunnableBeforeIsPrefix(r, i);
      assert IsReady(n, r.states) <==> Runnable(r, n);
      forall m | Runnable(r, m) && m.id == id ensures m == n {
        UniqueIdsAsElements(nodes);
      }
    }
  }

  lemma StartIsLawful(r: Run, id: NodeId, now: nat)
    requires Reachable(r)
    ensures var (r1, o) := Apply(r, Start(id, now)); StartedRightly(r, id, now, r1, o)
  {
    ReadyIsStartable(r, id);
    if id in ReadyNodes(r) {
      var n := ReadyMayStart(r, id);
      TransitionSound(r, n, StartedEvent, now);
    }
  }

  lemma CompleteIsLawful(r: Run, id: NodeId, c: Contribution, now: nat)
    requires Reachable(r)
    ensures var (r1, o) := Apply(r, Complete(id, c, now)); CompletedRightly(r, id, c, now, r1, o)
  {
    if id in r.states && r.states[id] == Running {
      var n := RunningNode(r, id);
      TransitionSound(r, n, CompletedEvent, now);
    }
  }

  lemma FailIsLawful(r: Run, id: NodeId, now: nat)
    requires Reachable(r)
    ensures var (r1, o) := Apply(r, Fail(id, now)); FailedRightly(r, id, now, r1, o)
  {
    if id in r.states && r.states[id] == Running {
      var n := RunningNode(r, id);
      TransitionSound(r, n, FailedEvent, now);
    }
  }

  // ----- cancelling

  /** Which events cancelling the nodes `ids` adds. */
  lemma {:induction false} CancelAllRecords(r: Run, ids: seq<NodeId>, now: nat)
    requires Cancellable(r, ids) && (ids == [] || now >= r.lastObserved)
    ensures var r1 := CancelAll(r, ids, now).0;
      && r1.lastObserved == (if ids == [] then r.lastObserved else now)
      && r.events <= r1.events && |r1.events| == |r.events| + |ids|
      && forall i :: 0 <= i < |ids| ==> r1.events[|r.events| + i] == Event(|r.events| + i + 1, ids[i], CancelledEvent, now)
    decreases |ids|
  {
    if ids != [] {
      ExecutionScheduling.CancelOne(r, ids, now);
      var mid := Transition(r, ids[0], CancelledEvent, now).0;
      CancelAllRecords(mid, ids[1..], now);
      var r1 := CancelAll(r, ids, now).0;
      assert r1 == CancelAll(mid, ids[1..], now).0;
      forall i | 0 <= i < |ids| ensures r1.events[|r.events| + i] == Event(|r.events| + i + 1, ids[i], CancelledEvent, now) {
        if i > 0 {
          assert ids[i] == ids[1..][i - 1] && r1.events[|mid.events| + (i - 1)] == r1.events[|r.events| + i];
        } else {
          assert r1.events[|r.events|] == mid.events[|r.events|];
        }
      }
    }
  }

  lemma {:induction false} ActiveIdsSorted(nodes: seq<NodeSpec>, states: States)
    requires StrictlySorted(ById, nodes)
    ensures StrictlySorted(Strings.Less, ActiveIds(nodes, states))
    ensures forall id :: id in ActiveIds(nodes, states) ==> id in Ids(nodes)
  {
    if nodes != [] {
      var rest := nodes[1..];
      ActiveIdsSorted(rest, states);
      var tail := ActiveIds(rest, states);
      forall j | 0 <= j < |tail| ensures Strings.Less(nodes[0].id, tail[j]) {
        assert tail[j] in tail;
        var n :| n in rest && n.id == tail[j];
        var k :| 0 <= k < |rest| && rest[k] == n;
        assert nodes[k + 1] == n && ById(nodes[0], nodes[k + 1]);
      }
      assert forall n :: n in rest ==> n in nodes;
    }
  }

  lemma UnfinishedHasIds(r: Run, ids: seq<NodeId>)
    requires Reachable(r) && ids == ActiveIds(r.plan.nodes, r.states)
    ensures forall k :: k in ids <==> k in r.states && (r.states[k] == Pending || r.states[k] == Running)
    ensures Unfinished(r) <==> ids != []
  {
    ReplayKeys(r.plan, r.events);
    ActiveIdsExact(r.plan.nodes, r.states);
    HasMember(ids);
  }

  lemma HasMember<T>(s: seq<T>)
    ensures s != [] <==> exists x :: x in s
  {
    if s != [] {
      assert s[0] in s;
    }
  }

  lemma CancelStates(r: Run, now: nat)
    requires Reachable(r)
    ensures var (r1, o) := Apply(r, CancelRemaining(now));
      if Unfinished(r) && now < r.lastObserved then o == Err(ClockRegression) && r1 == r
      else o == Ok && StatesCancelled(r, r1)
  {
    CancellationIsTotal(r, now);
  }

  /** What cancelling leaves alone, and what it records. */
  lemma CancelFrame(r: Run, now: nat)
    requires Reachable(r) && (Unfinished(r) ==> now >= r.lastObserved)
    ensures CancellationRecorded(r, Apply(r, CancelRemaining(now)).0, now)
  {
    var ids := ActiveIds(r.plan.nodes, r.states);
    ReplayKeys(r.plan, r.events);
    ActiveIdsExact(r.plan.nodes, r.states);
    UnfinishedHasIds(r, ids);
    ActiveIdsSorted(r.plan.nodes, r.states);
    CancelAllSound(r, ids, now);
    CancelAllRecords(r, ids, now);
    CancelledEvents(r, CancelAll(r, ids, now).0, ids, now);
  }

  lemma CancelIsLawful(r: Run, now: nat)
    requires Reachable(r)
    ensures var (r1, o) := Apply(r, CancelRemaining(now)); CancelledRightly(r, now, r1, o)
  {
    CancelStates(r, now);
    if Unfinished(r) ==> now >= r.lastObserved {
      CancelFrame(r, now);
    }
  }

  lemma CancelledEvents(r: Run, r1: Run, ids: seq<NodeId>, now: nat)
    requires StrictlySorted(Strings.Less, ids)
    requires forall k :: k in ids <==> k in r.states && (r.states[k] == Pending || r.states[k] == Running)
    requires r.events <= r1.events && |r1.events| == |r.events| + |ids|
    requires forall i :: 0 <= i < |ids| ==> r1.events[|r.events| + i] == Event(|r.events| + i + 1, ids[i], CancelledEvent, now)
    ensures Cancellations(r, r1.events[|r.events|..], now)
  {
    var added := r1.events[|r.events|..];
    forall i | 0 <= i < |added| ensures added[i] == Event(|r.events| + i + 1, ids[i], CancelledEvent, now) {
      assert added[i] == r1.events[|r.events| + i];
    }
    forall k ensures k in ids <==> exists i :: 0 <= i < |added| && added[i].nodeId == k {
      if k in ids {
        var i :| 0 <= i < |ids| && ids[i] == k;
        assert added[i].nodeId == k;
      }
    }
  }

  /** Every call is answered lawfully. */
  lemma ApplyIsLawful(r: Run, op: Op)
    requires Reachable(r)
    ensures var (r1, o) := Apply(r, op); Lawful(r, op, r1, o)
  {
    match op
    case Start(id, now) => StartIsLawful(r, id, now);
    case Complete(id, c, now) => CompleteIsLawful(r, id, c, now);
    case Fail(id, now) => FailIsLawful(r, id, now);
    case CancelRemaining(now) => CancelIsLawful(r, now);
  }

  /** The law leaves one answer to every call. */
  lemma LawDecides(r: Run, op: Op, r1: Run, o1: Outcome, r2: Run, o2: Outcome)
    requires Lawful(r, op, r1, o1) && Lawful(r, op, r2, o2)
    ensures r1 == r2 && o1 == o2
  {
    match op
    case CancelRemaining(now) => CancellationDecided(r, now, r1, o1, r2, o2);
    case Complete(_, _, _) =>
      if o1 == Ok {
        assert r1.facts == r2.facts;
      }
    case _ =>
  }

  lemma CancellationDecided(r: Run, now: nat, r1: Run, o1: Outcome, r2: Run, o2: Outcome)
    requires CancelledRightly(r, now, r1, o1) && CancelledRightly(r, now, r2, o2)
    ensures r1 == r2 && o1 == o2
  {
    if o1 == Ok {
      SameCancellations(r, r1.events[|r.events|..], r2.events[|r.events|..], now);
      assert r1.events == r.events + r1.events[|r.events|..] && r2.events == r.events + r2.events[|r.events|..];
      assert r1.states == r2.states;
    }
  }

  function NodeIdOf(e: Event): NodeId { e.nodeId }

  lemma SameCancellations(r: Run, a: seq<Event>, b: seq<Event>, now: nat)
    requires Cancellations(r, a, now) && Cancellations(r, b, now)
    ensures a == b
  {
    var x, y := Map(NodeIdOf, a), Map(NodeIdOf, b);
    Strings.LessIsStrictTotal();
    forall k ensures k in x <==> k in y {
      NamedByCancellations(r, a, now, k);
      NamedByCancellations(r, b, now, k);
    }
    StrictlySortedUnique(Strings.Less, x, y);
    forall i | 0 <= i < |a| ensures a[i] == b[i] {
      assert x[i] == y[i];
    }
  }

  lemma NamedByCancellations(r: Run, added: seq<Event>, now: nat, k: NodeId)
    requires Cancellations(r, added, now)
    ensures k in Map(NodeIdOf, added) <==> k in r.states && (r.states[k] == Pending || r.states[k] == Running)
  {
    if i :| 0 <= i < |added| && added[i].nodeId == k {
      assert Map(NodeIdOf, added)[i] == k;
    }
  }

  // ----- whole runs

  /** The contributions of the completions that a run accepts. */
  function Contributions(r: Run, ops: seq<Op>): seq<Contribution>
    decreases |ops|
  {
    if ops == [] then []
    else
      var (r1, o) := Apply(r, ops[0]);
      (if ops[0].Complete? && o == Ok then [ops[0].contribution] else []) + Contributions(r1, ops[1..])
  }

  datatype Part = ModelTurns | ToolCalls | Admitted | Suppressed

  function Of(u: Usage, part: Part): nat {
    match part
    case ModelTurns => u.modelTurns
    case ToolCalls => u.toolCalls
    case Admitted => u.admitted
    case Suppressed => u.suppressed
  }

  function Total(cs: seq<Contribution>, part: Part): nat {
    if cs == [] then 0 else Of(cs[0].usage, part) + Total(cs[1..], part)
  }

  ghost predicate SomeHolds(cs: seq<Contribution>, f: Fact) {
    exists i :: 0 <= i < |cs| && f in cs[i].facts
  }

  /** The run's facts and usage have grown by these contributions. */
  ghost predicate GrownBy(r: Run, r1: Run, cs: seq<Contribution>) {
    && (forall f :: f in r1.facts <==> f in r.facts || SomeHolds(cs, f))
    && (forall part :: Of(r1.usage, part) == Of(r.usage, part) + Total(cs, part))
  }

  lemma {:induction false} HoldsCons(c: Contribution, rest: seq<Contribution>, f: Fact)
    ensures SomeHolds([c] + rest, f) <==> f in c.facts || SomeHolds(rest, f)
  {
    var cs := [c] + rest;
    if f in c.facts {
      assert f in cs[0].facts;
    }
    if i :| 0 <= i < |rest| && f in rest[i].facts {
      assert cs[i + 1] == rest[i];
    }
    if i :| 0 <= i < |cs| && f in cs[i].facts {
      assert i > 0 ==> rest[i - 1] == cs[i];
    }
  }

  lemma {:induction false} TotalCons(c: Contribution, rest: seq<Contribution>, part: Part)
    ensures Total([c] + rest, part) == Of(c.usage, part) + Total(rest, part)
  {
    assert ([c] + rest)[1..] == rest;
  }

  /** An accepted completion adds its contribution, and nothing else adds anything. */
  lemma {:induction false} OneStepGrows(r: Run, op: Op)
    requires Reachable(r)
    ensures var (r1, o) := Apply(r, op);
      if op.Complete? && o == Ok then
        (forall f :: f in r1.facts <==> f in r.facts || f in op.contribution.facts)
        && (forall part :: Of(r1.usage, part) == Of(r.usage, part) + Of(op.contribution.usage, part))
      else r1.facts == r.facts && r1.usage == r.usage
  {
    ApplyIsLawful(r, op);
  }

  lemma {:induction false} GrownOneMore(r: Run, mid: Run, r1: Run, c: Contribution, rest: seq<Contribution>)
    requires forall f :: f in mid.facts <==> f in r.facts || f in c.facts
    requires forall part :: Of(mid.usage, part) == Of(r.usage, part) + Of(c.usage, part)
    requires GrownBy(mid, r1, rest)
    ensures GrownBy(r, r1, [c] + rest)
  {
    forall f ensures f in r1.facts <==> f in r.facts || SomeHolds([c] + rest, f) {
      HoldsCons(c, rest, f);
    }
    forall part ensures Of(r1.usage, part) == Of(r.usage, part) + Total([c] + rest, part) {
      TotalCons(c, rest, part);
    }
  }

  /** Over every run the facts are the union, and the usage the sum, of the contributions of the accepted
      completions, on top of what there was. */
  lemma {:induction false} RunsAddUp(r: Run, ops: seq<Op>)
    requires Reachable(r)
    ensures GrownBy(r, ApplyAll(r, ops), Contributions(r, ops))
    decreases |ops|
  {
    if ops != [] {
      var op, mid := ops[0], Apply(r, ops[0]).0;
      ApplySound(r, op);
      OneStepGrows(r, op);
      RunsAddUp(mid, ops[1..]);
      if op.Complete? && Apply(r, op).1 == Ok {
        GrownOneMore(r, mid, ApplyAll(mid, ops[1..]), op.contribution, Contributions(mid, ops[1..]));
      } else {
        assert Contributions(r, ops) == Contributions(mid, ops[1..]);
        assert r.facts == mid.facts && r.usage == mid.usage;
      }
    }
  }

  /** The summary of a run that started from nothing. */
  lemma {:induction false} SummariesAddUp(plan: Plan, startedAt: nat, ops: seq<Op>)
    requires ValidPlan(plan)
    ensures var start := NewRun(plan, startedAt);
      var s, cs := SummaryOf(ApplyAll(start, ops)), Contributions(start, ops);
      && (forall f :: f in s.facts <==> SomeHolds(cs, f))
      && (forall part :: Of(s.usage, part) == Total(cs, part))
  {
    NewRunReachable(plan, startedAt);
    RunsAddUp(NewRun(plan, startedAt), ops);
    forall part ensures Of(NoUsage, part) == 0 { }
  }

  /** A new run: every node waits, and nothing has happened. */
  lemma NewRunWaits(plan: Plan, startedAt: nat)
    requires ValidPlan(plan)
    ensures var r := NewRun(plan, startedAt);
      && r.plan == plan && r.lastObserved == startedAt && r.events == [] && r.facts == {} && r.usage == Usage(0, 0, 0, 0)
      && r.states.Keys == Ids(plan.nodes) && forall k :: k in r.states ==> r.states[k] == Pending
  {
  }

  /** A node that has finished stays as it is. */
  lemma FinishedStays(r: Run, op: Op, k: NodeId)
    requires Reachable(r) && k in r.states && r.states[k] != Pending && r.states[k] != Running
    ensures var r1 := Apply(r, op).0; k in r1.states && r1.states[k] == r.states[k]
  {
    ApplyIsLawful(r, op);
  }

  lemma {:induction false} FinishedStaysForever(r: Run, ops: seq<Op>, k: NodeId)
    requires Reachable(r) && k in r.states && r.states[k] != Pending && r.states[k] != Running
    ensures var end := ApplyAll(r, ops); Reachable(end) && k in end.states && end.states[k] == r.states[k]
    decreases |ops|
  {
    if ops != [] {
      ApplySound(r, ops[0]);
      FinishedStays(r, ops[0], k);
      FinishedStaysForever(Apply(r, ops[0]).0, ops[1..], k);
    }
  }

  /** A node whose dependency has failed has not been started. */
  lemma FailureBlocks(r: Run, n: NodeSpec, d: NodeId)
    requires Reachable(r) && n in r.plan.nodes && d in n.dependencies
    requires d in r.states && r.states[d] == Failed
    ensures forall j :: 0 <= j < |r.events| && r.events[j].nodeId == n.id ==> r.events[j].kind != StartedEvent
  {
    forall j | 0 <= j < |r.events| && r.events[j].nodeId == n.id ensures r.events[j].kind != StartedEvent {
      if r.events[j].kind == StartedEvent {
        GraphAt(r.plan.nodes, n);
        var i := StartsFollowDependencies(r.plan, r.events, j, d);
        ReplayKeys(r.plan, r.events);
        HistoriesDecideStates(r.plan, r.events, d);
        InHistory(r.events, i);
      }
    }
  }

  lemma {:induction false} InHistory(events: seq<Event>, i: nat)
    requires i < |events|
    ensures events[i].kind in History(events, events[i].nodeId)
  {
    var n := |events| - 1;
    if i < n {
      InHistory(events[..n], i);
    }
  }

  lemma FailureIsReached(r: Run, id: NodeId, now: nat) returns (failed: Run)
    requires Reachable(r) && Apply(r, Fail(id, now)).1 == Ok
    ensures failed == Apply(r, Fail(id, now)).0
    ensures Reachable(failed) && failed.plan == r.plan && id in failed.states && failed.states[id] == Failed
  {
    failed := Apply(r, Fail(id, now)).0;
    ApplySound(r, Fail(id, now));
    FailIsLawful(r, id, now);
  }

  /** Once a node has failed, no node that depends on it is ever started, whatever is called. */
  lemma {:induction false} DependentsOfFailedNeverStart(r: Run, id: NodeId, now: nat, ops: seq<Op>, n: NodeSpec)
    requires Reachable(r) && Apply(r, Fail(id, now)).1 == Ok
    requires n in r.plan.nodes && id in n.dependencies
    ensures var end := ApplyAll(Apply(r, Fail(id, now)).0, ops);
      && id in end.states && end.states[id] == Failed
      && forall j :: 0 <= j < |end.events| && end.events[j].nodeId == n.id ==> end.events[j].kind != StartedEvent
  {
    var failed := FailureIsReached(r, id, now);
    NeverStartedAfter(failed, id, ops, n);
  }

  lemma {:induction false} NeverStartedAfter(failed: Run, id: NodeId, ops: seq<Op>, n: NodeSpec)
    requires Reachable(failed) && id in failed.states && failed.states[id] == Failed
    requires n in failed.plan.nodes && id in n.dependencies
    ensures var end := ApplyAll(failed, ops);
      && id in end.states && end.states[id] == Failed
      && forall j :: 0 <= j < |end.events| && end.events[j].nodeId == n.id ==> end.events[j].kind != StartedEvent
  {
    FinishedStaysForever(failed, ops, id);
    RunsAreSafe(failed, ops);
    FailureBlocks(ApplyAll(failed, ops), n, id);
  }
}
