/** Plans of the internal review graph and Kahn's acyclicity check
    (crates/revoot-core/src/execution_graph.rs, lines 48-191). */
module ExecutionPlans {
  import opened Wrappers
  import opened Sorting
  import Strings

  const HARD_MAX_NODES := 256
  const HARD_MAX_EVENTS := 2048
  const HARD_MAX_PARALLEL_NODES := 32

  type NodeId = string

  datatype NodeKind = ReviewPreparation | Investigation | CandidateVerification | Adjudication

  datatype NodeSpec = NodeSpec(id: NodeId, kind: NodeKind, dependencies: set<NodeId>)

  datatype Limits = Limits(maxNodes: nat, maxEvents: nat, maxParallelNodes: nat) {
    predicate Valid() {
      && 0 < maxNodes <= HARD_MAX_NODES
      && 0 < maxEvents <= HARD_MAX_EVENTS
      && 0 < maxParallelNodes <= HARD_MAX_PARALLEL_NODES
      && maxParallelNodes <= maxNodes
    }
  }

  /** A compiled plan. The ordered map of the source is its entries in key order. */
  datatype Plan = Plan(nodes: seq<NodeSpec>, limits: Limits)

  datatype GraphError =
    | InvalidLimits | DuplicateNode | MissingDependency | SelfDependency | Cycle
    | UnknownNode | NodeNotReady | NodeNotRunning | ClockRegression | EventBudget | UsageOverflow

  predicate ById(a: NodeSpec, b: NodeSpec) {
    Strings.Less(a.id, b.id)
  }

  lemma ByIdOrder()
    ensures StrictWeak(ById)
    ensures forall a: NodeSpec, b: NodeSpec :: a.id == b.id || ById(a, b) || ById(b, a)
  {
    Strings.KeyOrder((n: NodeSpec) => n.id, ById);
    Strings.LessIsTotalOrder();
  }

  ghost predicate UniqueIds(nodes: seq<NodeSpec>) {
    forall i, j :: 0 <= i < j < |nodes| ==> nodes[i].id != nodes[j].id
  }

  ghost function Ids(nodes: seq<NodeSpec>): set<NodeId> {
    set n | n in nodes :: n.id
  }

  // ----- dependency graphs

  ghost function DependenciesOf(nodes: seq<NodeSpec>, k: NodeId): set<NodeId>
    requires k in Ids(nodes)
  {
    var n :| n in nodes && n.id == k; n.dependencies
  }

  /** The dependency relation of a node list. */
  ghost function Graph(nodes: seq<NodeSpec>): map<NodeId, set<NodeId>> {
    map k | k in Ids(nodes) :: DependenciesOf(nodes, k)
  }

  lemma GraphAt(nodes: seq<NodeSpec>, n: NodeSpec)
    requires UniqueIds(nodes) && n in nodes
    ensures n.id in Graph(nodes) && Graph(nodes)[n.id] == n.dependencies
  {
    var m :| m in nodes && m.id == n.id && Graph(nodes)[n.id] == m.dependencies;
    var i :| 0 <= i < |nodes| && nodes[i] == m;
    var j :| 0 <= j < |nodes| && nodes[j] == n;
  }

  /** The node behind a key. */
  lemma NodeOf(nodes: seq<NodeSpec>, k: NodeId) returns (j: nat)
    requires UniqueIds(nodes) && k in Ids(nodes)
    ensures j < |nodes| && nodes[j].id == k && nodes[j] in nodes && Graph(nodes)[k] == nodes[j].dependencies
  {
    var n :| n in nodes && n.id == k;
    j :| 0 <= j < |nodes| && nodes[j] == n;
    GraphAt(nodes, n);
  }

  ghost predicate Closed(g: map<NodeId, set<NodeId>>) {
    forall k :: k in g ==> g[k] <= g.Keys
  }

  /** Each node of `c` depends on the next one, and the last on the first. */
  ghost predicate IsCycle(g: map<NodeId, set<NodeId>>, c: seq<NodeId>) {
    && c != []
    && (forall i :: 0 <= i < |c| ==> c[i] in g)
    && (forall i :: 0 <= i < |c| - 1 ==> c[i + 1] in g[c[i]])
    && c[0] in g[c[|c| - 1]]
  }

  ghost predicate Acyclic(g: map<NodeId, set<NodeId>>) {
    forall c :: !IsCycle(g, c)
  }

  /** Every listed node is new and comes behind all of its dependencies. */
  ghost predicate DependenciesFirst(g: map<NodeId, set<NodeId>>, order: seq<NodeId>) {
    order == [] ||
    (var last, before := order[|order| - 1], order[..|order| - 1];
     && DependenciesFirst(g, before)
     && last in g && last !in before
     && g[last] <= SetOf(before))
  }

  /** An order of all nodes in which dependencies come first. */
  ghost predicate IsTopological(g: map<NodeId, set<NodeId>>, order: seq<NodeId>) {
    DependenciesFirst(g, order) && SetOf(order) == g.Keys
  }

  lemma {:induction false} DependenciesFirstAt(g: map<NodeId, set<NodeId>>, order: seq<NodeId>, i: nat)
    requires DependenciesFirst(g, order) && i < |order|
    ensures order[i] in g && order[i] !in order[..i] && g[order[i]] <= SetOf(order[..i])
  {
    var before := order[..|order| - 1];
    if i < |before| {
      DependenciesFirstAt(g, before, i);
      assert before[..i] == order[..i];
    }
  }

  lemma {:induction false} DependenciesFirstFacts(g: map<NodeId, set<NodeId>>, order: seq<NodeId>)
    requires DependenciesFirst(g, order)
    ensures Distinct(order) && SetOf(order) <= g.Keys
  {
    if order != [] {
      var before := order[..|order| - 1];
      DependenciesFirstFacts(g, before);
      assert order == before + [order[|order| - 1]];
    }
  }

  lemma {:induction false} DependenciesFirstSnoc(g: map<NodeId, set<NodeId>>, order: seq<NodeId>, id: NodeId)
    requires DependenciesFirst(g, order) && id in g && id !in order && g[id] <= SetOf(order)
    ensures DependenciesFirst(g, order + [id])
    ensures SetOf(order + [id]) == SetOf(order) + {id}
  {
    assert (order + [id])[..|order|] == order;
    forall x ensures x in SetOf(order + [id]) <==> x in SetOf(order) + {id} {
      assert x in order + [id] <==> x in order || x == id;
    }
  }

  ghost function Position(order: seq<NodeId>, x: NodeId): (i: nat)
    requires x in order
    ensures i < |order| && order[i] == x
  {
    var i :| 0 <= i < |order| && order[i] == x; i
  }

  lemma DependencyComesEarlier(g: map<NodeId, set<NodeId>>, order: seq<NodeId>, x: NodeId, d: NodeId)
    requires IsTopological(g, order) && x in g && d in g[x]
    ensures x in order && d in order && Position(order, d) < Position(order, x)
  {
    assert x in SetOf(order);
    var p := Position(order, x);
    DependenciesFirstAt(g, order, p);
    assert d in SetOf(order[..p]);
    var q :| 0 <= q < p && order[q] == d;
    var r := Position(order, d);
    DependenciesFirstFacts(g, order);
    assert r == q;
  }

  lemma {:induction false} CyclePositions(g: map<NodeId, set<NodeId>>, order: seq<NodeId>, c: seq<NodeId>, i: nat)
    requires IsTopological(g, order) && IsCycle(g, c) && i < |c|
    ensures c[i] in order && c[0] in order
    ensures Position(order, c[i]) + i <= Position(order, c[0])
  {
    if i == 0 {
      assert c[0] in SetOf(order);
    } else {
      CyclePositions(g, order, c, i - 1);
      DependencyComesEarlier(g, order, c[i - 1], c[i]);
    }
  }

  /** A topological order excludes every cycle. */
  lemma TopologicalIsAcyclic(g: map<NodeId, set<NodeId>>, order: seq<NodeId>)
    requires IsTopological(g, order)
    ensures Acyclic(g) && Closed(g)
  {
    forall c ensures !IsCycle(g, c) {
      if IsCycle(g, c) {
        CyclePositions(g, order, c, |c| - 1);
        DependencyComesEarlier(g, order, c[|c| - 1], c[0]);
      }
    }
    forall k | k in g ensures g[k] <= g.Keys {
      assert k in SetOf(order);
      var p := Position(order, k);
      DependenciesFirstAt(g, order, p);
      forall d | d in g[k] ensures d in g.Keys {
        assert d in SetOf(order[..p]);
        assert d in SetOf(order);
      }
    }
  }

  lemma {:induction false} DistinctBounded<T>(walk: seq<T>, s: set<T>)
    requires Distinct(walk) && SetOf(walk) <= s
    ensures |walk| <= |s|
  {
    if walk != [] {
      var x := walk[|walk| - 1];
      var rest := walk[..|walk| - 1];
      assert x in SetOf(walk);
      forall y | y in SetOf(rest) ensures y in s - {x} {
        assert y in walk;
      }
      DistinctBounded(rest, s - {x});
    }
  }

  ghost predicate IsWalk(g: map<NodeId, set<NodeId>>, s: set<NodeId>, walk: seq<NodeId>) {
    && walk != [] && Distinct(walk) && SetOf(walk) <= s
    && s <= g.Keys
    && forall i :: 0 <= i < |walk| - 1 ==> walk[i + 1] in g[walk[i]]
  }

  /** Walking along dependencies inside a finite set returns to an earlier node. */
  lemma {:induction false} WalkCloses(g: map<NodeId, set<NodeId>>, s: set<NodeId>, walk: seq<NodeId>) returns (c: seq<NodeId>)
    requires IsWalk(g, s, walk)
    requires forall k :: k in s ==> g[k] * s != {}
    ensures IsCycle(g, c) && SetOf(c) <= s
    decreases |s| - |walk|
  {
    DistinctBounded(walk, s);
    var last := walk[|walk| - 1];
    assert last in SetOf(walk);
    var d :| d in g[last] * s;
    if d in walk {
      var i := Position(walk, d);
      c := walk[i..];
      forall x | x in SetOf(c) ensures x in s {
        assert x in SetOf(walk);
      }
      forall j | 0 <= j < |c| ensures c[j] in g {
        assert c[j] in SetOf(walk);
      }
      assert forall j :: 0 <= j < |c| ==> c[j] == walk[i + j];
    } else {
      var longer := walk + [d];
      forall x | x in SetOf(longer) ensures x in s {
        assert x == d || x in SetOf(walk);
      }
      DistinctBounded(longer, s);
      c := WalkCloses(g, s, longer);
    }
  }

  lemma CycleWithin(g: map<NodeId, set<NodeId>>, s: set<NodeId>) returns (c: seq<NodeId>)
    requires s != {} && s <= g.Keys
    requires forall k :: k in s ==> g[k] * s != {}
    ensures IsCycle(g, c) && SetOf(c) <= s
  {
    var k :| k in s;
    c := WalkCloses(g, s, [k]);
  }

  // ----- Kahn's algorithm

  /** The least element of a nonempty subset of the ids: `BTreeSet::pop_first`. */
  function FirstIn(nodes: seq<NodeSpec>, ready: set<NodeId>): (id: NodeId)
    requires exists n :: n in nodes && n.id in ready
    ensures id in ready && id in set n | n in nodes :: n.id
  {
    if nodes[0].id in ready then nodes[0].id
    else
      assert nodes == [nodes[0]] + nodes[1..];
      FirstIn(nodes[1..], ready)
  }

  /** What a pop has done to the pending dependencies of the nodes before position `i`. */
  ghost predicate Swept(nodes: seq<NodeSpec>, remaining: map<NodeId, set<NodeId>>, order: seq<NodeId>, i: nat)
    requires i <= |nodes| && order != []
  {
    && (forall j :: 0 <= j < i && nodes[j].id in remaining
          ==> remaining[nodes[j].id] == nodes[j].dependencies - SetOf(order))
    && (forall j :: i <= j < |nodes| && nodes[j].id in remaining
          ==> remaining[nodes[j].id] == nodes[j].dependencies - SetOf(order[..|order| - 1]))
  }

  /** Nodes whose pending dependencies have all been popped. */
  ghost predicate ReadyExactly(remaining: map<NodeId, set<NodeId>>, ready: set<NodeId>) {
    forall k :: k in ready <==> k in remaining && remaining[k] == {}
  }

  /** The collections that seed the worklist. */
  method InitialDependencies(nodes: seq<NodeSpec>)
    returns (remaining: map<NodeId, set<NodeId>>, ready: set<NodeId>)
    requires UniqueIds(nodes)
    ensures remaining == Graph(nodes)
    ensures ReadyExactly(remaining, ready)
  {
    remaining, ready := map[], {};
    for i := 0 to |nodes|
      invariant forall j :: 0 <= j < i ==> nodes[j].id in remaining && remaining[nodes[j].id] == nodes[j].dependencies
      invariant forall k :: k in remaining ==> exists j :: 0 <= j < i && nodes[j].id == k
      invariant ReadyExactly(remaining, ready)
    {
      var n := nodes[i];
      assert n.id !in remaining;
      remaining := remaining[n.id := n.dependencies];
      if n.dependencies == {} {
        ready := ready + {n.id};
      }
    }
    forall k ensures k in remaining <==> k in Graph(nodes) {
      if k in Ids(nodes) {
        var j := NodeOf(nodes, k);
      }
    }
    forall k | k in remaining ensures remaining[k] == Graph(nodes)[k] {
      var j := NodeOf(nodes, k);
    }
  }

  lemma SetOfSnoc(order: seq<NodeId>, id: NodeId)
    ensures SetOf(order + [id]) == SetOf(order) + {id}
    ensures (order + [id])[..|order + [id]| - 1] == order
  {
    assert (order + [id])[..|order|] == order;
    forall x ensures x in SetOf(order + [id]) <==> x in SetOf(order) + {id} {
      assert x in order + [id] <==> x in order || x == id;
    }
  }

  /** Strike one popped node from every pending dependency set. */
  method Sweep(nodes: seq<NodeSpec>, pending: map<NodeId, set<NodeId>>, waiting: set<NodeId>, id: NodeId, ghost order: seq<NodeId>)
    returns (remaining: map<NodeId, set<NodeId>>, ready: set<NodeId>)
    requires UniqueIds(nodes)
    requires order != [] && SetOf(order) == SetOf(order[..|order| - 1]) + {id}
    requires Swept(nodes, pending, order, 0) && ReadyExactly(pending, waiting)
    ensures remaining.Keys == pending.Keys
    ensures Swept(nodes, remaining, order, |nodes|) && ReadyExactly(remaining, ready)
  {
    remaining, ready := pending, waiting;
    for i := 0 to |nodes|
      invariant remaining.Keys == pending.Keys
      invariant Swept(nodes, remaining, order, i)
      invariant ReadyExactly(remaining, ready)
    {
      var candidate := nodes[i].id;
      if candidate in remaining && id in remaining[candidate] {
        remaining := remaining[candidate := remaining[candidate] - {id}];
        if remaining[candidate] == {} {
          ready := ready + {candidate};
        }
      }
    }
  }

  /** The worklist invariant of `validate_acyclic`. */
  ghost predicate Progress(g: map<NodeId, set<NodeId>>, remaining: map<NodeId, set<NodeId>>, ready: set<NodeId>, order: seq<NodeId>) {
    && remaining.Keys == g.Keys - SetOf(order)
    && (forall k :: k in remaining ==> remaining[k] == g[k] - SetOf(order))
    && ReadyExactly(remaining, ready)
    && DependenciesFirst(g, order)
  }

  lemma PendingMatchesNodes(nodes: seq<NodeSpec>, remaining: map<NodeId, set<NodeId>>, order: seq<NodeId>)
    requires UniqueIds(nodes)
    requires remaining.Keys <= Ids(nodes)
    ensures (forall k :: k in remaining ==> remaining[k] == Graph(nodes)[k] - SetOf(order))
      <==> (forall j :: 0 <= j < |nodes| && nodes[j].id in remaining
              ==> remaining[nodes[j].id] == nodes[j].dependencies - SetOf(order))
  {
    forall j | 0 <= j < |nodes| ensures nodes[j].id in Graph(nodes) && Graph(nodes)[nodes[j].id] == nodes[j].dependencies {
      GraphAt(nodes, nodes[j]);
    }
    forall k | k in remaining ensures exists j :: 0 <= j < |nodes| && nodes[j].id == k {
      assert k in Ids(nodes);
      var j := NodeOf(nodes, k);
    }
  }

  lemma RemovalShrinks(pending: map<NodeId, set<NodeId>>, remaining: map<NodeId, set<NodeId>>, id: NodeId)
    requires id in pending && remaining.Keys == pending.Keys - {id}
    ensures |remaining| < |pending|
  {
    assert pending.Keys == remaining.Keys + {id} && id !in remaining.Keys;
    assert |pending.Keys| == |remaining.Keys| + 1;
  }

  lemma {:induction false} PoppedInOrder(g: map<NodeId, set<NodeId>>, pending: map<NodeId, set<NodeId>>, waiting: set<NodeId>, order: seq<NodeId>, id: NodeId)
    requires Progress(g, pending, waiting, order) && id in waiting
    ensures DependenciesFirst(g, order + [id])
  {
    assert pending[id] == {};
    forall d | d in g[id] ensures d in SetOf(order) {
      assert d !in g[id] - SetOf(order);
    }
    DependenciesFirstSnoc(g, order, id);
  }

  lemma {:induction false} PopProgress(g: map<NodeId, set<NodeId>>, pending: map<NodeId, set<NodeId>>, waiting: set<NodeId>, order: seq<NodeId>,
                    id: NodeId, remaining: map<NodeId, set<NodeId>>, ready: set<NodeId>)
    requires Progress(g, pending, waiting, order)
    requires DependenciesFirst(g, order + [id])
    requires remaining.Keys == pending.Keys - {id}
    requires forall k :: k in remaining ==> remaining[k] == g[k] - SetOf(order + [id])
    requires ReadyExactly(remaining, ready)
    ensures Progress(g, remaining, ready, order + [id])
  {
    SetOfSnoc(order, id);
  }

  /** One pop: the least ready node leaves the worklist. */
  method Pop(nodes: seq<NodeSpec>, pending: map<NodeId, set<NodeId>>, waiting: set<NodeId>, ghost order: seq<NodeId>)
    returns (remaining: map<NodeId, set<NodeId>>, ready: set<NodeId>, id: NodeId)
    requires UniqueIds(nodes) && waiting != {}
    requires Progress(Graph(nodes), pending, waiting, order)
    ensures id in waiting && Progress(Graph(nodes), remaining, ready, order + [id])
    ensures |remaining| < |pending|
  {
    ghost var r :| r in waiting;
    assert r in Ids(nodes);
    id := FirstIn(nodes, waiting);
    SetOfSnoc(order, id);
    var rest := pending - {id};
    PendingMatchesNodes(nodes, rest, order);
    remaining, ready := Sweep(nodes, rest, waiting - {id}, id, order + [id]);
    PendingMatchesNodes(nodes, remaining, order + [id]);
    PoppedInOrder(Graph(nodes), pending, waiting, order, id);
    PopProgress(Graph(nodes), pending, waiting, order, id, remaining, ready);
    RemovalShrinks(pending, remaining, id);
  }

  /** When nothing is ready, every node left over still waits for another one left over. */
  lemma StuckNodesCycle(g: map<NodeId, set<NodeId>>, remaining: map<NodeId, set<NodeId>>, order: seq<NodeId>) returns (cycle: seq<NodeId>)
    requires Progress(g, remaining, {}, order) && Closed(g) && remaining.Keys != {}
    ensures IsCycle(g, cycle) && SetOf(cycle) !! SetOf(order)
  {
    forall k | k in remaining.Keys ensures g[k] * remaining.Keys != {} {
      assert k !in {} && remaining[k] != {};
      var d :| d in remaining[k];
      assert g[k] <= g.Keys;
      assert d in g[k] * remaining.Keys;
    }
    cycle := CycleWithin(g, remaining.Keys);
  }

  lemma {:induction false} AllPopped(nodes: seq<NodeSpec>, order: seq<NodeId>)
    requires UniqueIds(nodes) && DependenciesFirst(Graph(nodes), order)
    ensures |order| == |nodes| <==> SetOf(order) == Graph(nodes).Keys
  {
    DependenciesFirstFacts(Graph(nodes), order);
    DistinctCount(order);
    KeyCount(nodes);
    assert Graph(nodes).Keys == Ids(nodes);
    if |order| == |nodes| {
      SubsetFull(SetOf(order), Ids(nodes));
    }
  }

  /** An empty worklist decides the verdict: all nodes popped, or a cycle among the others. */
  lemma Verdict(g: map<NodeId, set<NodeId>>, remaining: map<NodeId, set<NodeId>>, order: seq<NodeId>) returns (cycle: seq<NodeId>)
    requires Progress(g, remaining, {}, order)
    requires SetOf(order) != g.Keys && Closed(g)
    ensures IsCycle(g, cycle) && SetOf(cycle) !! SetOf(order)
  {
    DependenciesFirstFacts(g, order);
    assert remaining.Keys != {};
    cycle := StuckNodesCycle(g, remaining, order);
  }

  /** `validate_acyclic`: accepts exactly the closed graphs without a dependency cycle. The pop
      order is topological on acceptance; on rejection a closed graph has a cycle among the nodes
      that were never popped. */
  method ValidateAcyclic(nodes: seq<NodeSpec>)
    returns (ok: bool, ghost order: seq<NodeId>, ghost cycle: seq<NodeId>)
    requires UniqueIds(nodes)
    ensures ok <==> Closed(Graph(nodes)) && Acyclic(Graph(nodes))
    ensures ok ==> IsTopological(Graph(nodes), order)
    ensures !ok && Closed(Graph(nodes)) ==> IsCycle(Graph(nodes), cycle) && SetOf(cycle) !! SetOf(order)
  {
    var remaining, ready := InitialDependencies(nodes);
    var visited := 0;
    order := [];
    assert Progress(Graph(nodes), remaining, ready, order);
    while ready != {}
      invariant Progress(Graph(nodes), remaining, ready, order)
      invariant visited == |order|
      decreases |remaining|
    {
      var id;
      remaining, ready, id := Pop(nodes, remaining, ready, order);
      visited := visited + 1;
      order := order + [id];
    }
    cycle := [];
    ok := visited == |nodes|;
    AllPopped(nodes, order);
    if ok {
      TopologicalIsAcyclic(Graph(nodes), order);
    } else if Closed(Graph(nodes)) {
      cycle := Verdict(Graph(nodes), remaining, order);
    }
  }

  lemma {:induction false} DistinctCount<T>(s: seq<T>)
    requires Distinct(s)
    ensures |SetOf(s)| == |s|
  {
    if s != [] {
      var n := |s| - 1;
      DistinctCount(s[..n]);
      assert s[n] !in s[..n];
      assert SetOf(s) == SetOf(s[..n]) + {s[n]} by {
        assert s == s[..n] + [s[n]];
      }
    }
  }

  lemma {:induction false} KeyCount(nodes: seq<NodeSpec>)
    requires UniqueIds(nodes)
    ensures |Ids(nodes)| == |nodes|
  {
    if nodes != [] {
      var n := |nodes| - 1;
      KeyCount(nodes[..n]);
      assert nodes == nodes[..n] + [nodes[n]];
      assert Ids(nodes) == Ids(nodes[..n]) + {nodes[n].id};
    }
  }

  lemma SubsetFull<T>(a: set<T>, b: set<T>)
    requires a <= b && |a| == |b|
    ensures a == b
  {
    assert b == a + (b - a);
    assert |b - a| == |b| - |a|;
    assert b - a == {};
  }

  // ----- plan construction

  /** No node depends on itself and every dependency is a node. */
  ghost predicate WellLinked(nodes: seq<NodeSpec>) {
    forall n :: n in nodes ==> n.id !in n.dependencies && n.dependencies <= Ids(nodes)
  }

  ghost predicate Sized(nodes: seq<NodeSpec>, limits: Limits) {
    0 < |nodes| <= limits.maxNodes && 2 * |nodes| <= limits.maxEvents
  }

  /** What every plan returned by `TryNew` satisfies. */
  ghost predicate ValidPlan(p: Plan) {
    && p.limits.Valid() && Sized(p.nodes, p.limits)
    && StrictlySorted(ById, p.nodes)
    && UniqueIds(p.nodes)
    && WellLinked(p.nodes)
    && Acyclic(Graph(p.nodes))
  }

  ghost predicate IdsDecide(nodes: seq<NodeSpec>) {
    forall m, n :: m in nodes && n in nodes && m.id == n.id ==> m == n
  }

  lemma UniqueIdsAsElements(nodes: seq<NodeSpec>)
    ensures UniqueIds(nodes) <==> Distinct(nodes) && IdsDecide(nodes)
  {
    if UniqueIds(nodes) {
      forall m, n | m in nodes && n in nodes && m.id == n.id ensures m == n {
        var i :| 0 <= i < |nodes| && nodes[i] == m;
        var j :| 0 <= j < |nodes| && nodes[j] == n;
      }
    }
  }

  lemma GraphPermutation(a: seq<NodeSpec>, b: seq<NodeSpec>)
    requires UniqueIds(a) && multiset(a) == multiset(b)
    ensures UniqueIds(b) && Graph(a) == Graph(b) && Ids(a) == Ids(b) && |a| == |b|
  {
    SameElements(a, b);
    UniqueIdsAsElements(a);
    DistinctPermutation(a, b);
    UniqueIdsAsElements(b);
    assert Ids(a) == Ids(b);
    forall k | k in Ids(a) ensures Graph(a)[k] == Graph(b)[k] {
      var j := NodeOf(a, k);
      GraphAt(b, a[j]);
    }
  }

  /** The duplicate check of the compiling loop, and its sorted result. */
  method Compile(nodes: seq<NodeSpec>) returns (r: Option<seq<NodeSpec>>)
    ensures r.Some? <==> UniqueIds(nodes)
    ensures r.Some? ==> StrictlySorted(ById, r.value) && multiset(r.value) == multiset(nodes)
  {
    var compiled: seq<NodeSpec> := [];
    ByIdOrder();
    for i := 0 to |nodes|
      invariant UniqueIds(nodes[..i])
      invariant multiset(compiled) == multiset(nodes[..i])
      invariant StrictlySorted(ById, compiled)
    {
      SameElements(compiled, nodes[..i]);
      assert nodes[..i + 1] == nodes[..i] + [nodes[i]];
      if exists n :: n in compiled && n.id == nodes[i].id {
        ghost var n :| n in nodes[..i] && n.id == nodes[i].id;
        ghost var j :| 0 <= j < i && nodes[..i][j] == n;
        assert nodes[j].id == nodes[i].id;
        return None;
      }
      forall j | 0 <= j < i ensures nodes[j].id != nodes[i].id {
        assert nodes[..i][j] in compiled;
      }
      InsertStrict(nodes[i], compiled);
      compiled := InsertBy(ById, nodes[i], compiled);
    }
    assert nodes[..|nodes|] == nodes;
    return Some(compiled);
  }

  lemma {:induction false} InsertStrict(n: NodeSpec, s: seq<NodeSpec>)
    requires StrictlySorted(ById, s)
    requires forall m :: m in s ==> m.id != n.id
    ensures StrictlySorted(ById, InsertBy(ById, n, s))
  {
    ByIdOrder();
    InsertSorted(ById, n, s);
    var r := InsertBy(ById, n, s);
    assert multiset(r) == multiset(s + [n]);
    SameElements(r, s + [n]);
    Strings.LessIsTotalOrder();
    assert Distinct(s + [n]);
    DistinctPermutation(s + [n], r);
    forall i, j | 0 <= i < j < |r| ensures ById(r[i], r[j]) {
      assert r[i] in s + [n] && r[j] in s + [n];
      if r[i].id == r[j].id {
        assert r[i] in s && r[j] in s;
      }
    }
  }

  ghost predicate LinkedTo(n: NodeSpec, ids: set<NodeId>) {
    n.id !in n.dependencies && n.dependencies <= ids
  }

  /** The link checks of `try_new`: the first offending node in key order decides the error. */
  function LinkError(nodes: seq<NodeSpec>, ids: set<NodeId>): (e: Option<GraphError>)
    ensures e.None? <==> forall n :: n in nodes ==> n.id !in n.dependencies && n.dependencies <= ids
    ensures e.Some? ==> e.value == SelfDependency || e.value == MissingDependency
  {
    if nodes == [] then None
    else if nodes[0].id in nodes[0].dependencies then Some(SelfDependency)
    else if !(nodes[0].dependencies <= ids) then Some(MissingDependency)
    else LinkError(nodes[1..], ids)
  }

  /** The offending node with the smallest identity. */
  ghost predicate FirstOffender(nodes: seq<NodeSpec>, n: NodeSpec) {
    n in nodes && !LinkedTo(n, Ids(nodes)) && forall m :: m in nodes && Strings.Less(m.id, n.id) ==> LinkedTo(m, Ids(nodes))
  }

  lemma {:induction false} LinkErrorPlace(nodes: seq<NodeSpec>, ids: set<NodeId>) returns (i: nat)
    requires LinkError(nodes, ids).Some?
    ensures i < |nodes| && !LinkedTo(nodes[i], ids) && forall j :: 0 <= j < i ==> LinkedTo(nodes[j], ids)
    ensures LinkError(nodes, ids).value == if nodes[i].id in nodes[i].dependencies then SelfDependency else MissingDependency
  {
    if LinkedTo(nodes[0], ids) {
      var k := LinkErrorPlace(nodes[1..], ids);
      i := k + 1;
    } else {
      i := 0;
    }
  }

  /** In key order the first offending node is the one with the smallest identity. */
  lemma FirstOffenderFound(nodes: seq<NodeSpec>, sorted: seq<NodeSpec>) returns (n: NodeSpec)
    requires multiset(nodes) == multiset(sorted) && StrictlySorted(ById, sorted) && LinkError(sorted, Ids(nodes)).Some?
    ensures FirstOffender(nodes, n)
    ensures LinkError(sorted, Ids(nodes)).value == if n.id in n.dependencies then SelfDependency else MissingDependency
  {
    var i := LinkErrorPlace(sorted, Ids(nodes));
    n := sorted[i];
    SameElements(nodes, sorted);
    forall m | m in nodes && Strings.Less(m.id, n.id) ensures LinkedTo(m, Ids(nodes)) {
      var j :| 0 <= j < |sorted| && sorted[j] == m;
      if j >= i {
        NotBefore(sorted, i, j);
      }
    }
  }

  lemma NotBefore(sorted: seq<NodeSpec>, i: nat, j: nat)
    requires StrictlySorted(ById, sorted) && i <= j < |sorted|
    ensures !Strings.Less(sorted[j].id, sorted[i].id)
  {
    Strings.LessIrreflexive(sorted[i].id);
    if i < j {
      assert ById(sorted[i], sorted[j]);
      Strings.LessAsymmetric(sorted[i].id, sorted[j].id);
    }
  }

  lemma LinkedIsClosed(nodes: seq<NodeSpec>)
    requires UniqueIds(nodes) && WellLinked(nodes)
    ensures Closed(Graph(nodes))
  {
    forall k | k in Graph(nodes) ensures Graph(nodes)[k] <= Graph(nodes).Keys {
      var j := NodeOf(nodes, k);
    }
  }

  predicate Usable(l: Limits) {
    1 <= l.maxNodes <= 256 && 1 <= l.maxEvents <= 2048 && 1 <= l.maxParallelNodes <= 32 && l.maxParallelNodes <= l.maxNodes
  }

  /** `ExecutionGraphPlan::try_new`. The six outcomes are told apart exactly, in the order of the
      checks, and whatever order the nodes arrive in. */
  method TryNew(nodes: seq<NodeSpec>, limits: Limits) returns (r: Result<Plan, GraphError>)
    ensures r.Success? <==>
      limits.Valid() && UniqueIds(nodes) && Sized(nodes, limits) && WellLinked(nodes) && Acyclic(Graph(nodes))
    ensures r.Success? ==>
      ValidPlan(r.value) && r.value.limits == limits && multiset(r.value.nodes) == multiset(nodes)
    ensures r.Failure? && r.error == DuplicateNode <==> limits.Valid() && !UniqueIds(nodes)
    ensures r.Failure? && r.error == InvalidLimits <==>
      !Usable(limits) || (UniqueIds(nodes) && !(1 <= |nodes| <= limits.maxNodes && 2 * |nodes| <= limits.maxEvents))
    ensures r.Failure? && (r.error == SelfDependency || r.error == MissingDependency) <==>
      limits.Valid() && UniqueIds(nodes) && Sized(nodes, limits) && !WellLinked(nodes)
    ensures r.Failure? && r.error == SelfDependency ==> exists n :: FirstOffender(nodes, n) && n.id in n.dependencies
    ensures r.Failure? && r.error == MissingDependency ==> exists n :: FirstOffender(nodes, n) && n.id !in n.dependencies
    ensures r.Failure? && r.error == Cycle <==>
      limits.Valid() && UniqueIds(nodes) && Sized(nodes, limits) && WellLinked(nodes) && !Acyclic(Graph(nodes))
  {
    if !limits.Valid() {
      return Failure(InvalidLimits);
    }
    var compiled := Compile(nodes);
    if compiled.None? {
      return Failure(DuplicateNode);
    }
    var sorted := compiled.value;
    GraphPermutation(nodes, sorted);
    SameElements(nodes, sorted);
    if sorted == [] || |sorted| > limits.maxNodes || 2 * |sorted| > limits.maxEvents {
      return Failure(InvalidLimits);
    }
    var link := LinkError(sorted, set n | n in sorted :: n.id);
    assert WellLinked(nodes) <==> link.None?;
    if link.Some? {
      ghost var n := FirstOffenderFound(nodes, sorted);
      return Failure(link.value);
    }
    LinkedIsClosed(sorted);
    var ok, _, _ := ValidateAcyclic(sorted);
    if !ok {
      return Failure(Cycle);
    }
    return Success(Plan(sorted, limits));
  }

  /** An accepted plan has a topological order of its nodes. */
  lemma PlanHasTopologicalOrder(g: map<NodeId, set<NodeId>>) returns (order: seq<NodeId>)
    requires Closed(g) && Acyclic(g)
    ensures IsTopological(g, order)
  {
    order := [];
    while SetOf(order) != g.Keys
      invariant DependenciesFirst(g, order) && SetOf(order) <= g.Keys
      decreases g.Keys - SetOf(order)
    {
      var rest := g.Keys - SetOf(order);
      if forall k :: k in rest ==> g[k] * rest != {} {
        var c := CycleWithin(g, rest);
        assert false;
      }
      var k :| k in rest && g[k] * rest == {};
      assert g[k] <= g.Keys;
      forall d | d in g[k] ensures d in SetOf(order) {
        assert d !in g[k] * rest;
      }
      DependenciesFirstSnoc(g, order, k);
      order := order + [k];
    }
  }
}
