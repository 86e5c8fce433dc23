/** ExpandTree of internal/deepagent/tree.go over its mutable ledger and node list. The scheduler picks any goroutine
    that can move, and the researcher may answer anything; every execution is a run of the state machine. */
module ExpandTrees {
  import opened Prelude
  import opened Sums
  import opened Budget
  import opened Tree
  import opened TreeLedger
  import opened TreeShape
  import opened TreeOutcomes

  datatype FlattenedClaim = FlattenedClaim(text: string, markers: seq<string>, lineage: seq<Id>, source: Id)

  datatype TreeResult = TreeResult(
    rootQuery: string, totalNodes: nat, totalTokensUsed: int, totalReservedTokens: int, totalCostUsd: real,
    maxDepthReached: nat, status: string, citations: seq<Citation>, claims: seq<FlattenedClaim>)

  datatype Expansion = InvalidConfig | RootFailed | Expanded(result: TreeResult)

  class TreeState {
    const tracker: BudgetTracker
    var nodes: seq<Node>

    constructor (tracker: BudgetTracker)
      ensures this.tracker == tracker && nodes == []
    {
      this.tracker := tracker;
      nodes := [];
    }
  }

  function Rank(p: Phase): nat {
    match p case Waiting => 3 case Fanning => 2 case Settled => 1 case Recorded => 0
  }

  function Ranks(tasks: seq<Task>): (r: seq<int>)
    ensures |r| == |tasks|
  {
    seq(|tasks|, k requires 0 <= k < |tasks| => Rank(tasks[k].phase))
  }

  lemma RankDrops(tasks: seq<Task>, k: nat, t: Task)
    requires k < |tasks| && Rank(t.phase) < Rank(tasks[k].phase)
    ensures 0 <= Sum(Ranks(tasks[k := t])) < Sum(Ranks(tasks))
  {
    assert Ranks(tasks[k := t]) == Ranks(tasks)[k := Rank(t.phase)];
    SumUpdate(Ranks(tasks), k, Rank(t.phase));
    NonNegative(Ranks(tasks[k := t]));
  }

  /** Runs the goroutines of one level until all have appended their node. */
  method ProcessAll(
    cfg: BudgetConfig, state: TreeState, start: seq<Task>, ghost query: string, ghost level: nat,
    ghost before: seq<Event>) returns (tasks: seq<Task>, ghost events: seq<Event>)
    requires Execute(cfg, query, before) == Some(State(state.tracker.View(), state.nodes, start, level))
    modifies state`nodes, state.tracker
    ensures Execute(cfg, query, events) == Some(State(state.tracker.View(), state.nodes, tasks, level))
    ensures AllRecorded(tasks) && |tasks| == |start| && |state.nodes| >= |old(state.nodes)|
    ensures (exists k :: 0 <= k < |start| && !start[k].phase.Recorded?) ==> state.nodes != []
  {
    hide Execute;
    tasks, events := start, before;
    while !AllRecorded(tasks)
      invariant |tasks| == |start| && |state.nodes| >= |old(state.nodes)|
      invariant Execute(cfg, query, events) == Some(State(state.tracker.View(), state.nodes, tasks, level))
      invariant state.nodes != [] || forall j :: 0 <= j < |tasks| ==> tasks[j].phase.Recorded? ==> start[j].phase.Recorded?
      decreases Sum(Ranks(tasks))
    {
      var k :| 0 <= k < |tasks| && !tasks[k].phase.Recorded?;
      var t := tasks[k];
      ghost var s := State(state.tracker.View(), state.nodes, tasks, level);
      ghost var e;
      var t';
      match t.phase {
        case Waiting =>
          e := Admit(k);
          var allowed := state.tracker.PreCheck(PreCheckNode(t.node, t.parentTokens), cfg);
          if allowed {
            var reserved := ReservedAmount(t.node, t.parentTokens, cfg);
            t' := t.(node := t.node.(reservedTokens := reserved, status := Expanding), phase := Fanning);
          } else {
            t' := t.(node := t.node.(status := BudgetExceeded), phase := Settled);
          }
        case Fanning =>
          var outcome: Outcome := *;
          e := Finish(k, outcome);
          state.tracker.ReleaseOnComplete(t.node, Charged(outcome));
          t' := t.(node := Finished(cfg, t.node, outcome), phase := Settled);
        case Settled =>
          e := Append(k);
          state.nodes := state.nodes + [t.node];
          t' := t.(phase := Recorded);
        case Recorded =>
          assert false;
      }
      ExecuteExtend(cfg, query, events, e, s);
      RankDrops(tasks, k, t');
      tasks, events := tasks[k := t'], events + [e];
    }
  }

  /** Asks every frontier node for sub-queries; a node whose decomposition fails is marked failed. */
  method DecomposeFrontier(nodes: seq<Node>, level: nat)
      returns (after: seq<Node>, children: seq<Node>, answers: seq<Option<seq<string>>>)
    ensures |answers| == |nodes| && after == AfterDecompose(nodes, answers, level)
    ensures children == Children(nodes, answers, level, |nodes|)
  {
    hide AfterDecompose, Children, ChildrenOf, InFrontier;
    after, children, answers := nodes, [], [];
    NothingDecomposed(nodes, level);
    for i := 0 to |nodes|
      invariant |answers| == i && |after| == |nodes|
      invariant after == AfterDecompose(nodes[..i], answers, level) + nodes[i..]
      invariant children == Children(nodes[..i], answers, level, i)
    {
      var answer: Option<seq<string>> := *;
      assert nodes[..i + 1] == nodes[..i] + [nodes[i]];
      DecomposeOne(nodes[..i], nodes[i], answers, answer, level);
      ReplaceNext(AfterDecompose(nodes[..i], answers, level), nodes, i);
      answers := answers + [answer];
      if InFrontier(nodes[i], level) {
        match answer
        case None => after := after[i := nodes[i].(status := Failed)];
        case Some(queries) => children := children + ChildrenOf(nodes[i], queries);
      }
    }
    assert nodes[..|nodes|] == nodes;
  }

  lemma ReplaceNext(done: seq<Node>, nodes: seq<Node>, i: nat)
    requires |done| == i < |nodes|
    ensures forall x :: (done + nodes[i..])[i := x] == (done + [x]) + nodes[i + 1..]
    ensures done + nodes[i..] == (done + [nodes[i]]) + nodes[i + 1..]
  {
  }

  lemma NothingDecomposed(nodes: seq<Node>, level: nat)
    ensures AfterDecompose(nodes[..0], [], level) + nodes[0..] == nodes
    ensures Children(nodes[..0], [], level, 0) == []
  {
  }

  lemma DecomposeOne(
    nodes: seq<Node>, x: Node, answers: seq<Option<seq<string>>>, a: Option<seq<string>>, level: nat)
    requires |nodes| == |answers|
    ensures
      AfterDecompose(nodes + [x], answers + [a], level) == AfterDecompose(nodes, answers, level)
        + [if InFrontier(x, level) && a.None? then x.(status := Failed) else x]
    ensures
      Children(nodes + [x], answers + [a], level, |nodes| + 1) == Children(nodes, answers, level, |nodes|)
        + if InFrontier(x, level) && a.Some? then ChildrenOf(x, a.value) else []
  {
    ChildrenPrefix(nodes, x, answers, a, level, |nodes|);
  }

  lemma {:induction false} ChildrenPrefix(
    nodes: seq<Node>, x: Node, answers: seq<Option<seq<string>>>, a: Option<seq<string>>, level: nat, n: nat)
    requires n <= |nodes| == |answers|
    ensures Children(nodes + [x], answers + [a], level, n) == Children(nodes, answers, level, n)
  {
    if n > 0 {
      ChildrenPrefix(nodes, x, answers, a, level, n - 1);
    }
  }

  function TokenSum(nodes: seq<Node>): int {
    Sum(NodeValues(Tokens, nodes))
  }

  function CostSum(nodes: seq<Node>): real {
    if nodes == [] then 0.0 else CostSum(nodes[..|nodes| - 1]) + nodes[|nodes| - 1].costUsd
  }

  /** The citations of the complete nodes, in the order in which they were recorded. */
  function AllCitations(nodes: seq<Node>): seq<Citation> {
    if nodes == [] then []
    else
      var last := nodes[|nodes| - 1];
      AllCitations(nodes[..|nodes| - 1]) + if last.status.Complete? then last.citations else []
  }

  /** Every claim of every recorded node, with the chain of ids from the root to its node. */
  function FlatClaims(nodes: seq<Node>): seq<FlattenedClaim> {
    if nodes == [] then [] else
      FlatClaims(nodes[..|nodes| - 1]) + ClaimsOf(nodes[|nodes| - 1], |nodes[|nodes| - 1].claims|)
  }

  function ClaimsOf(node: Node, n: nat): (r: seq<FlattenedClaim>)
    requires n <= |node.claims|
    ensures |r| == n
  {
    seq(n, k requires 0 <= k < n => 
      FlattenedClaim(node.claims[k].text, node.claims[k].markers, Chain(node.id), node.id))
  }

  method IndexNodes(nodes: seq<Node>) returns (nodeMap: map<Id, Node>)
    ensures nodeMap == NodeMap(nodes)
  {
    nodeMap := map[];
    for i := 0 to |nodes|
      invariant nodeMap == NodeMap(nodes[..i])
    {
      nodeMap := nodeMap[nodes[i].id := nodes[i]];
      assert nodes[..i + 1][..i] == nodes[..i];
    }
    assert nodes[..|nodes|] == nodes;
  }

  method ClaimsWithLineage(node: Node, nodeMap: map<Id, Node>) returns (own: seq<FlattenedClaim>)
    requires IsFamily(nodeMap) && node.id in nodeMap && nodeMap[node.id] == node
    ensures own == ClaimsOf(node, |node.claims|)
  {
    own := [];
    for c := 0 to |node.claims|
      invariant own == ClaimsOf(node, c)
    {
      var lineage := FlattenWithLineage(node, nodeMap);
      own := own + [FlattenedClaim(node.claims[c].text, node.claims[c].markers, lineage, node.id)];
    }
  }

  ghost predicate IsDeepest(nodes: seq<Node>, depth: nat) {
    && (forall j :: 0 <= j < |nodes| ==> nodes[j].depth <= depth)
    && (depth == 0 || exists j :: 0 <= j < |nodes| && nodes[j].depth == depth)
  }

  ghost predicate SomeExceeded(nodes: seq<Node>) {
    exists j :: 0 <= j < |nodes| && nodes[j].status.BudgetExceeded?
  }

  lemma AddNode(nodes: seq<Node>, x: Node, depth: nat)
    requires IsDeepest(nodes, depth)
    ensures IsDeepest(nodes + [x], Max(depth, x.depth))
    ensures SomeExceeded(nodes + [x]) <==> SomeExceeded(nodes) || x.status.BudgetExceeded?
    ensures TokenSum(nodes + [x]) == TokenSum(nodes) + x.tokensUsed
    ensures FlatClaims(nodes + [x]) == FlatClaims(nodes) + ClaimsOf(x, |x.claims|)
    ensures CostSum(nodes + [x]) == CostSum(nodes) + x.costUsd
    ensures AllCitations(nodes + [x]) == AllCitations(nodes) + if x.status.Complete? then x.citations else []
  {
    var all := nodes + [x];
    assert all[..|nodes|] == nodes && all[|nodes|] == x;
    assert NodeValues(Tokens, all) == NodeValues(Tokens, nodes) + [x.tokensUsed];
    SumAppend(NodeValues(Tokens, nodes), x.tokensUsed);
    if j :| 0 <= j < |nodes| && nodes[j].depth == depth {
      assert all[j].depth == depth;
    }
    if j :| 0 <= j < |nodes| && nodes[j].status.BudgetExceeded? {
      assert all[j].status.BudgetExceeded?;
    }
  }

  method BuildTreeResult(query: string, state: TreeState) returns (r: TreeResult)
    requires IsFamily(NodeMap(state.nodes))
    requires forall i :: 0 <= i < |state.nodes| ==>
        state.nodes[i].id in NodeMap(state.nodes) && NodeMap(state.nodes)[state.nodes[i].id] == state.nodes[i]
    ensures r.rootQuery == query
    ensures r.totalNodes == |state.nodes| && r.totalTokensUsed == TokenSum(state.nodes)
    ensures r.totalCostUsd == CostSum(state.nodes) && r.citations == AllCitations(state.nodes)
    ensures r.totalReservedTokens == state.tracker.totalReservedTokens
    ensures IsDeepest(state.nodes, r.maxDepthReached)
    ensures r.status == if SomeExceeded(state.nodes) then "budget_exceeded" else "complete"
    ensures r.claims == FlatClaims(state.nodes)
  {
    hide IsFamily, NodeMap, TokenSum, FlatClaims, CostSum, AllCitations;
    var nodes := state.nodes;
    var nodeMap := IndexNodes(nodes);
    var used, cost, maxDepth, exceeded := 0, 0.0, 0, false;
    var citations: seq<Citation>, claims: seq<FlattenedClaim> := [], [];
    StartEmpty();
    for i := 0 to |nodes|
      invariant used == TokenSum(nodes[..i]) && cost == CostSum(nodes[..i])
      invariant citations == AllCitations(nodes[..i]) && claims == FlatClaims(nodes[..i])
      invariant IsDeepest(nodes[..i], maxDepth)
      invariant exceeded <==> SomeExceeded(nodes[..i])
    {
      var node := nodes[i];
      AddNode(nodes[..i], node, maxDepth);
      assert nodes[..i + 1] == nodes[..i] + [node];
      used, cost := used + node.tokensUsed, cost + node.costUsd;
      if node.depth > maxDepth {
        maxDepth := node.depth;
      }
      if node.status.Complete? {
        citations := citations + node.citations;
      }
      var own := ClaimsWithLineage(node, nodeMap);
      claims := claims + own;
      if node.status.BudgetExceeded? {
        exceeded := true;
      }
    }
    assert nodes[..|nodes|] == nodes;
    r := TreeResult(query, |nodes|, used, state.tracker.totalReservedTokens, cost, maxDepth,
      if exceeded then "budget_exceeded" else "complete", citations, claims);
  }

  lemma StartEmpty()
    ensures TokenSum([]) == 0 && CostSum([]) == 0.0 && AllCitations([]) == [] && FlatClaims([]) == []
  {
  }

  lemma {:induction false} CostIsTokens(cfg: BudgetConfig, nodes: seq<Node>)
    requires forall i :: 0 <= i < |nodes| ==> nodes[i].costUsd == CostOf(cfg, nodes[i].tokensUsed)
    ensures CostSum(nodes) == CostOf(cfg, TokenSum(nodes))
  {
    hide CostOf;
    SplitCost(cfg, 0, 0);
    if nodes != [] {
      var n := |nodes| - 1;
      CostIsTokens(cfg, nodes[..n]);
      assert NodeValues(Tokens, nodes)[..n] == NodeValues(Tokens, nodes[..n]);
      assert TokenSum(nodes) == TokenSum(nodes[..n]) + nodes[n].tokensUsed;
      SplitCost(cfg, TokenSum(nodes[..n]), nodes[n].tokensUsed);
    }
  }

  lemma SplitCost(cfg: BudgetConfig, a: int, b: int)
    ensures CostOf(cfg, a + b) == CostOf(cfg, a) + CostOf(cfg, b)
    ensures CostOf(cfg, 0) == 0.0
  {
  }

  lemma RecordedTotals(s: State)
    requires AllRecorded(s.tasks)
    ensures Total(Tokens, s) == TokenSum(s.nodes)
    ensures Total(Reserving, s) == 0
  {
    SumBounds(TaskValues(Tokens, s.tasks), 0);
    SumBounds(TaskValues(Reserving, s.tasks), 0);
    SumBounds(NodeValues(Reserving, s.nodes), 0);
  }

  /** What a finished expansion reports, in terms of the state its run ended in: a state in which nothing is left to
      expand, and whose root did not fail on its own. */
  ghost predicate Reports(cfg: BudgetConfig, query: string, s: State, r: TreeResult) {
    && IsFinal(cfg, s)
    && r.rootQuery == query
    && r.totalNodes == |s.nodes|
    && r.totalTokensUsed == s.ledger.used == Total(Tokens, s)
    && r.totalReservedTokens == s.ledger.reserved == Total(Retained, s)
    && r.totalCostUsd == CostOf(cfg, r.totalTokensUsed)
    && IsDeepest(s.nodes, r.maxDepthReached) && r.maxDepthReached <= cfg.depth
    && r.status == (if SomeExceeded(s.nodes) then "budget_exceeded" else "complete")
    && r.citations == AllCitations(s.nodes) && r.claims == FlatClaims(s.nodes)
  }

  ghost predicate IsFinal(cfg: BudgetConfig, s: State) {
    && AllRecorded(s.tasks) && s.nodes != []
    && (s.level == cfg.depth
        || forall i :: 0 <= i < |s.nodes| ==> !(s.nodes[i].depth == s.level && s.nodes[i].status == Complete))
    && (s.level == 0 ==> !s.nodes[0].status.Failed?)
  }

  /** The expansion: rejects bad configurations, fails exactly if the root's own Fanout fails, and otherwise reports a
      reachable state of the machine, its two token columns in agreement with the recorded nodes. */
  method ExpandTree(cfg: BudgetConfig, query: string) returns (r: Expansion, ghost events: seq<Event>)
    ensures r.InvalidConfig? <==> !(1 <= cfg.breadth <= 8 && 1 <= cfg.depth <= 5)
    ensures !r.InvalidConfig? ==> Execute(cfg, query, events).Some?
    ensures r.RootFailed? ==>
        var s := Execute(cfg, query, events).value;
        |s.nodes| == 1 && s.level == 0 && s.nodes[0].IsRoot() && s.nodes[0].status.Failed?
    ensures !r.InvalidConfig? ==> (r.RootFailed? <==> FanoutOf(cfg, query, events, []) == Some(Error))
    ensures r.Expanded? ==> Reports(cfg, query, Execute(cfg, query, events).value, r.result)
  {
    hide Execute, TokenSum, CostSum, AllCitations, FlatClaims, NodeMap, IsFamily, Reports, IsDeepest, SomeExceeded;
    hide AfterDecompose, NewTasks, Children, Truncated, FanoutOf, IsFinal;
    events := [];
    if cfg.breadth < 1 || cfg.breadth > 8 || cfg.depth < 1 || cfg.depth > 5 {
      return InvalidConfig, events;
    }
    var tracker := new BudgetTracker();
    var state := new TreeState(tracker);
    var start := [Task(RootNode(query), 0, Waiting)];
    StartRun(cfg, query);
    var tasks;
    tasks, events := ProcessAll(cfg, state, start, query, 0, events);
    assert start[0].phase.Waiting? && state.nodes != [];
    RootRecorded(cfg, query, events);
    RootOutcome(cfg, query, events);
    if state.nodes[0].status.Failed? {
      return RootFailed, events;
    }
    var level := 0;
    while level < cfg.depth
      invariant AllRecorded(tasks) && level <= cfg.depth
      invariant Execute(cfg, query, events) == Some(State(tracker.View(), state.nodes, tasks, level))
      invariant fresh(state) && fresh(tracker) && state.tracker == tracker && state.nodes != []
      invariant level == 0 ==> !state.nodes[0].status.Failed?
    {
      if !HasFrontier(state.nodes, level) {
        break;
      }
      var after, children, answers;
      after, children, answers := DecomposeFrontier(state.nodes, level);
      DecomposeRuns(cfg, query, events, answers, State(tracker.View(), state.nodes, tasks, level));
      NothingDeeper(cfg, query, events, answers);
      events := events + [Decompose(answers)];
      state.nodes, tasks := after, NewTasks(after, children);
      level := level + 1;
      if children == [] {
        break;
      }
      tasks, events := ProcessAll(cfg, state, tasks, query, level, events);
      var memoryTight: bool := *;
      if memoryTight {
        TruncationIsIdle(cfg, query, events);
        state.nodes := Truncated(state.nodes);
      }
    }
    FinishedRun(cfg, query, events);
    var result := BuildTreeResult(query, state);
    assert IsFinal(cfg, Execute(cfg, query, events).value) by {
      FinalState(cfg, Execute(cfg, query, events).value);
    }
    ReportHolds(cfg, query, events, result);
    RootOutcome(cfg, query, events);
    r := Expanded(result);
  }

  predicate HasFrontier(nodes: seq<Node>, level: nat) {
    exists i :: 0 <= i < |nodes| && InFrontier(nodes[i], level)
  }

  lemma StartRun(cfg: BudgetConfig, query: string)
    ensures Execute(cfg, query, []) == Some(State(Ledger(0, 0, 0), [], [Task(RootNode(query), 0, Waiting)], 0))
  {
  }

  /** After the first level there is exactly one recorded node, the root. */
  lemma RootRecorded(cfg: BudgetConfig, query: string, events: seq<Event>)
    requires Execute(cfg, query, events).Some?
    requires Execute(cfg, query, events).value.level == 0 && Execute(cfg, query, events).value.nodes != []
    ensures |Execute(cfg, query, events).value.nodes| == 1
    ensures Execute(cfg, query, events).value.nodes[0].IsRoot()
  {
    ShapeInEveryRun(cfg, query, events);
    var s := Execute(cfg, query, events).value;
    forall i | 0 <= i < |s.nodes|
      ensures IsPlaced(s.nodes[i]) && s.nodes[i].depth == 0 && s.nodes[i].id == []
    {
      assert IsPlaced(s.nodes[i]);
    }
    assert |s.nodes| == 1 || s.nodes[0].id != s.nodes[1].id;
  }

  lemma DecomposeRuns(
    cfg: BudgetConfig, query: string, events: seq<Event>, answers: seq<Option<seq<string>>>, s: State)
    requires Execute(cfg, query, events) == Some(s) && |answers| == |s.nodes|
    requires s.level < cfg.depth && AllRecorded(s.tasks) && HasFrontier(s.nodes, s.level)
    ensures
      var after := AfterDecompose(s.nodes, answers, s.level);
      var children := Children(s.nodes, answers, s.level, |s.nodes|);
      Execute(cfg, query, events + [Decompose(answers)])
        == Some(State(s.ledger, after, NewTasks(after, children), s.level + 1))
  {
    hide Execute, AfterDecompose, NewTasks, Children;
    ExecuteExtend(cfg, query, events, Decompose(answers), s);
  }

  lemma FinalState(cfg: BudgetConfig, s: State)
    requires AllRecorded(s.tasks) && s.nodes != []
    requires s.level == cfg.depth || !HasFrontier(s.nodes, s.level)
    requires s.level == 0 ==> !s.nodes[0].status.Failed?
    ensures IsFinal(cfg, s)
  {
  }

  /** Whether the root's own Fanout failed can be told from the state: it is the one failed node of a run that never
      got beyond it. */
  lemma RootOutcome(cfg: BudgetConfig, query: string, events: seq<Event>)
    requires Execute(cfg, query, events).Some? && Execute(cfg, query, events).value.nodes != []
    ensures
      var s := Execute(cfg, query, events).value;
      FanoutOf(cfg, query, events, []) == Some(Error) <==> s.level == 0 && s.nodes[0].status.Failed?
  {
    var s := Execute(cfg, query, events).value;
    OutcomesInEveryRun(cfg, query, events);
    ShapeInEveryRun(cfg, query, events);
    IdLengths(cfg, s);
    hide Execute, HasShape, FanoutOf, GivenUp;
    assert HoldsOutcome(cfg, s.nodes[0], FanoutOf(cfg, query, events, s.nodes[0].id),
        GivenUp(cfg, query, events, s.nodes[0].id));
    assert s.level == 0 ==> s.nodes[0].id == [] && !GivenUp(cfg, query, events, s.nodes[0].id);
  }

  /** Before the next level is recorded, nothing is in its frontier. */
  lemma NothingDeeper(cfg: BudgetConfig, query: string, events: seq<Event>, answers: seq<Option<seq<string>>>)
    requires Execute(cfg, query, events).Some? && |answers| == |Execute(cfg, query, events).value.nodes|
    ensures
      var s := Execute(cfg, query, events).value;
      !HasFrontier(AfterDecompose(s.nodes, answers, s.level), s.level + 1)
  {
    ShapeInEveryRun(cfg, query, events);
  }

  lemma FinishedRun(cfg: BudgetConfig, query: string, events: seq<Event>)
    requires Execute(cfg, query, events).Some?
    ensures
      var nodes := Execute(cfg, query, events).value.nodes;
      && IsFamily(NodeMap(nodes))
      && forall i :: 0 <= i < |nodes| ==> nodes[i].id in NodeMap(nodes) && NodeMap(nodes)[nodes[i].id] == nodes[i]
  {
    var nodes := Execute(cfg, query, events).value.nodes;
    forall i | 0 <= i < |nodes|
      ensures nodes[i].id in NodeMap(nodes) && NodeMap(nodes)[nodes[i].id] == nodes[i]
    {
      LineageInEveryRun(cfg, query, events, i);
    }
    if nodes != [] {
      LineageInEveryRun(cfg, query, events, 0);
    }
  }

  lemma ReportHolds(cfg: BudgetConfig, query: string, events: seq<Event>, r: TreeResult)
    requires Execute(cfg, query, events).Some?
    requires
      var s := Execute(cfg, query, events).value;
      && IsFinal(cfg, s) && r.rootQuery == query
      && r.totalNodes == |s.nodes| && r.totalTokensUsed == TokenSum(s.nodes) && r.totalCostUsd == CostSum(s.nodes)
      && r.totalReservedTokens == s.ledger.reserved && IsDeepest(s.nodes, r.maxDepthReached)
      && r.status == (if SomeExceeded(s.nodes) then "budget_exceeded" else "complete")
      && r.citations == AllCitations(s.nodes) && r.claims == FlatClaims(s.nodes)
    ensures Reports(cfg, query, Execute(cfg, query, events).value, r)
  {
    var s := Execute(cfg, query, events).value;
    LedgerInEveryRun(cfg, query, events);
    ShapeInEveryRun(cfg, query, events);
    hide Execute, HasShape, IsSound, LedgerHolds, IsDeepest, SomeExceeded, AllCitations, FlatClaims, TokenSum, CostSum,
      Reports, Total, CostOf, HasFrontier;
    ReportTotals(cfg, s, r.maxDepthReached);
    ReportOfParts(cfg, query, s, r);
  }

  lemma ReportOfParts(cfg: BudgetConfig, query: string, s: State, r: TreeResult)
    requires IsFinal(cfg, s) && r.rootQuery == query && r.totalNodes == |s.nodes|
    requires r.totalTokensUsed == s.ledger.used == Total(Tokens, s)
    requires r.totalReservedTokens == s.ledger.reserved == Total(Retained, s)
    requires r.totalCostUsd == CostOf(cfg, r.totalTokensUsed)
    requires IsDeepest(s.nodes, r.maxDepthReached) && r.maxDepthReached <= cfg.depth
    requires r.status == if SomeExceeded(s.nodes) then "budget_exceeded" else "complete"
    requires r.citations == AllCitations(s.nodes) && r.claims == FlatClaims(s.nodes)
    ensures Reports(cfg, query, s, r)
  {
    hide IsFinal, IsDeepest, SomeExceeded, AllCitations, FlatClaims, Total, CostOf;
  }

  lemma ReportTotals(cfg: BudgetConfig, s: State, deepest: nat)
    requires HasShape(cfg, s) && IsSound(cfg, s) && LedgerHolds(cfg, s)
    requires AllRecorded(s.tasks) && IsDeepest(s.nodes, deepest)
    ensures s.ledger.used == Total(Tokens, s) == TokenSum(s.nodes)
    ensures s.ledger.reserved == Total(Retained, s)
    ensures CostSum(s.nodes) == CostOf(cfg, TokenSum(s.nodes))
    ensures deepest <= cfg.depth
  {
    RecordedTotals(s);
    hide Total, TokenSum, CostSum, AllRecorded, CostOf, IsSoundTask, TasksPlaced, IdsUnique, HasParent, IsPlaced;
    CostIsTokens(cfg, s.nodes);
  }

  // ---------- the lists of the report, entry by entry ----------

  /** How many claims the first `n` nodes have. */
  function ClaimsBefore(nodes: seq<Node>, n: nat): nat
    requires n <= |nodes|
  {
    if n == 0 then 0 else ClaimsBefore(nodes, n - 1) + |nodes[n - 1].claims|
  }

  /** Every claim of every node is reported once, in order, with its text and markers, its node, and the ids on the
      way from the root: the first k indexes of the node's path, for each k. */
  lemma {:induction false} ClaimReported(nodes: seq<Node>, n: nat, i: nat, c: nat)
    requires i < n <= |nodes| && c < |nodes[i].claims|
    ensures
      var all, at := FlatClaims(nodes[..n]), ClaimsBefore(nodes, i) + c;
      && |all| == ClaimsBefore(nodes, n) && at < |all|
      && all[at].text == nodes[i].claims[c].text && all[at].markers == nodes[i].claims[c].markers
      && all[at].source == nodes[i].id && |all[at].lineage| == |nodes[i].id| + 1
      && forall k :: 0 <= k <= |nodes[i].id| ==> all[at].lineage[k] == nodes[i].id[..k]
  {
    ClaimCount(nodes, n - 1);
    ClaimCount(nodes, n);
    assert nodes[..n][..n - 1] == nodes[..n - 1];
    if i < n - 1 {
      ClaimReported(nodes, n - 1, i, c);
    } else {
      forall k | 0 <= k <= |nodes[i].id|
        ensures Chain(nodes[i].id)[k] == nodes[i].id[..k]
      {
        ChainAt(nodes[i].id, k);
      }
    }
  }

  lemma {:induction false} ClaimCount(nodes: seq<Node>, n: nat)
    requires n <= |nodes|
    ensures |FlatClaims(nodes[..n])| == ClaimsBefore(nodes, n)
  {
    if n > 0 {
      ClaimCount(nodes, n - 1);
      assert nodes[..n][..n - 1] == nodes[..n - 1];
    }
  }

  /** The citations of the complete nodes are reported, and no others. */
  lemma {:induction false} CitationsReported(nodes: seq<Node>, citation: Citation)
    ensures citation in AllCitations(nodes)
       <==> exists i :: 0 <= i < |nodes| && nodes[i].status == Complete && citation in nodes[i].citations
  {
    if nodes != [] {
      CitationsReported(nodes[..|nodes| - 1], citation);
      assert nodes == nodes[..|nodes| - 1] + [nodes[|nodes| - 1]];
    }
  }
}
