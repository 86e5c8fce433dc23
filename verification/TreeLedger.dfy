/** The ledger of a tree expansion in every reachable state: what is booked, what is held back, and how far the
    budget can be exceeded. */
module TreeLedger {
  import opened Prelude
  import opened Sums
  import opened Budget
  import opened Tree

  /** What a run is summed up by. */
  datatype Column =
    | Tokens      // used
    | Retained    // what a finished node leaves reserved
    | Overrun     // how far a node went beyond its reservation
    | Admitted    // nodes that passed PreCheck
    | Reserving   // reservations of nodes inside Fanout

  function NodeValue(c: Column, n: Node): int {
    match c
    case Tokens => n.tokensUsed
    case Retained => Kept(n)
    case Overrun => Max(0, n.tokensUsed - n.reservedTokens)
    case Admitted => if n.status.BudgetExceeded? then 0 else 1
    case Reserving => 0
  }

  /** A task counts once its ledger entry is settled; appending moves it to the recorded nodes. */
  function TaskValue(c: Column, t: Task): int {
    match t.phase
    case Waiting => 0
    case Fanning => if c.Reserving? then t.node.reservedTokens else 0
    case Settled => NodeValue(c, t.node)
    case Recorded => 0
  }

  function NodeValues(c: Column, nodes: seq<Node>): (r: seq<int>)
    ensures |r| == |nodes|
  {
    seq(|nodes|, i requires 0 <= i < |nodes| => NodeValue(c, nodes[i]))
  }

  function TaskValues(c: Column, tasks: seq<Task>): (r: seq<int>)
    ensures |r| == |tasks|
  {
    seq(|tasks|, i requires 0 <= i < |tasks| => TaskValue(c, tasks[i]))
  }

  function Total(c: Column, s: State): int {
    Sum(NodeValues(c, s.nodes)) + Sum(TaskValues(c, s.tasks))
  }

  predicate IsSoundNode(cfg: BudgetConfig, n: Node) {
    && n.status.IsTerminal()
    && n.tokensUsed >= 0
    && n.costUsd == CostOf(cfg, n.tokensUsed)
    && (n.status.BudgetExceeded? ==> n.tokensUsed == n.reservedTokens == 0)
  }

  predicate IsSoundTask(cfg: BudgetConfig, t: Task) {
    && t.parentTokens >= 0
    && match t.phase
       case Waiting => t.node.status.Pending? && t.node.tokensUsed == t.node.reservedTokens == 0 && t.node.costUsd == 0.0
       case Fanning =>
         && t.node.status.Expanding?
         && t.node.tokensUsed == 0 && t.node.costUsd == 0.0
         && t.node.reservedTokens == ReservedAmount(t.node, t.parentTokens, cfg)
       case _ => IsSoundNode(cfg, t.node)
  }

  predicate IsSound(cfg: BudgetConfig, s: State) {
    && (forall i :: 0 <= i < |s.nodes| ==> IsSoundNode(cfg, s.nodes[i]))
    && (forall k :: 0 <= k < |s.tasks| ==> IsSoundTask(cfg, s.tasks[k]))
  }

  predicate LedgerHolds(cfg: BudgetConfig, s: State) {
    && s.ledger.used == Total(Tokens, s)
    && s.ledger.reserved == Total(Reserving, s) + Total(Retained, s)
    && s.ledger.nodes == Total(Admitted, s)
    && s.ledger.used + Total(Reserving, s) <= Max(0, cfg.tokenBudget) + Total(Overrun, s)
  }

  // ---------- how a step changes a total ----------

  lemma TotalTask(c: Column, s: State, s': State, k: nat)
    requires k < |s.tasks| == |s'.tasks| && s'.nodes == s.nodes && s'.tasks == s.tasks[k := s'.tasks[k]]
    ensures Total(c, s') == Total(c, s) - TaskValue(c, s.tasks[k]) + TaskValue(c, s'.tasks[k])
  {
    assert TaskValues(c, s'.tasks) == TaskValues(c, s.tasks)[k := TaskValue(c, s'.tasks[k])];
    SumUpdate(TaskValues(c, s.tasks), k, TaskValue(c, s'.tasks[k]));
  }

  lemma TotalAppend(c: Column, s: State, k: nat)
    requires k < |s.tasks| && s.tasks[k].phase.Settled?
    ensures Total(c, AppendTask(s, k)) == Total(c, s)
  {
    var s' := AppendTask(s, k);
    assert TaskValues(c, s'.tasks) == TaskValues(c, s.tasks)[k := 0];
    SumUpdate(TaskValues(c, s.tasks), k, 0);
    assert NodeValues(c, s'.nodes) == NodeValues(c, s.nodes) + [NodeValue(c, s.tasks[k].node)];
    SumAppend(NodeValues(c, s.nodes), NodeValue(c, s.tasks[k].node));
  }

  lemma TotalDecompose(c: Column, s: State, answers: seq<Option<seq<string>>>)
    requires |answers| == |s.nodes| && AllRecorded(s.tasks)
    ensures Total(c, DecomposeAll(s, answers)) == Total(c, s)
  {
    var s' := DecomposeAll(s, answers);
    assert NodeValues(c, s'.nodes) == NodeValues(c, s.nodes);
    SumBounds(TaskValues(c, s.tasks), 0);
    SumBounds(TaskValues(c, s'.tasks), 0);
  }

  // ---------- soundness of the single records ----------

  lemma EstimateIsReservation(cfg: BudgetConfig, t: Task)
    requires t.node.tokensUsed == 0
    ensures Estimate(PreCheckNode(t.node, t.parentTokens), cfg) == ReservedAmount(t.node, t.parentTokens, cfg)
       <==> t.node.IsRoot() || t.parentTokens >= 0 || Headroom(t.parentTokens, cfg.breadth) == 0
  {
  }

  lemma {:induction false} ParentTokensSound(nodes: seq<Node>, id: Id)
    requires forall i :: 0 <= i < |nodes| ==> nodes[i].tokensUsed >= 0
    ensures ParentTokens(nodes, id) >= 0
  {
    if nodes != [] && nodes[0].id != id {
      ParentTokensSound(nodes[1..], id);
    }
  }

  lemma {:induction false} ChildrenPending(nodes: seq<Node>, answers: seq<Option<seq<string>>>, level: nat, n: nat)
    requires n <= |nodes| == |answers|
    ensures forall c :: c in Children(nodes, answers, level, n) ==>
        c.status.Pending? && c.tokensUsed == c.reservedTokens == 0 && c.costUsd == 0.0
  {
    if n > 0 {
      ChildrenPending(nodes, answers, level, n - 1);
    }
  }

  lemma SoundStep(cfg: BudgetConfig, s: State, e: Event)
    requires IsSound(cfg, s) && Enabled(cfg, s, e)
    ensures IsSound(cfg, Step(cfg, s, e))
  {
    match e
    case Admit(k) => assert IsSoundTask(cfg, s.tasks[k]);
    case Finish(k, outcome) => assert IsSoundTask(cfg, s.tasks[k]);
    case Append(k) => assert IsSoundTask(cfg, s.tasks[k]);
    case Decompose(answers) =>
      var s' := Step(cfg, s, e);
      ChildrenPending(s.nodes, answers, s.level, |s.nodes|);
      var children := Children(s.nodes, answers, s.level, |s.nodes|);
      forall i | 0 <= i < |s'.tasks|
        ensures IsSoundTask(cfg, s'.tasks[i])
      {
        assert children[i] in children;
        if children[i].parentId.Some? {
          ParentTokensSound(s'.nodes, children[i].parentId.value);
        }
      }
  }

  // ---------- the ledger ----------

  lemma {:induction false} NonNegative(s: seq<int>)
    requires forall k :: 0 <= k < |s| ==> s[k] >= 0
    ensures Sum(s) >= 0
  {
    if s != [] {
      NonNegative(s[..|s| - 1]);
    }
  }

  lemma {:induction false} SumBoth(a: seq<int>, b: seq<int>)
    requires |a| == |b| && forall k :: 0 <= k < |a| ==> a[k] + b[k] >= 0
    ensures Sum(a) + Sum(b) >= 0
  {
    if a != [] {
      SumBoth(a[..|a| - 1], b[..|b| - 1]);
    }
  }

  /** What a node retains is never further below zero than its overrun is above, so retained tokens cannot make room
      that overruns do not account for. */
  lemma OverrunCovers(cfg: BudgetConfig, s: State)
    requires IsSound(cfg, s)
    ensures Total(Retained, s) + Total(Overrun, s) >= 0
  {
    forall k | 0 <= k < |s.tasks|
      ensures TaskValue(Retained, s.tasks[k]) + TaskValue(Overrun, s.tasks[k]) >= 0
    {
      assert IsSoundTask(cfg, s.tasks[k]);
    }
    SumBoth(NodeValues(Retained, s.nodes), NodeValues(Overrun, s.nodes));
    SumBoth(TaskValues(Retained, s.tasks), TaskValues(Overrun, s.tasks));
  }

  lemma AdmitLedger(cfg: BudgetConfig, s: State, k: nat)
    requires IsSound(cfg, s) && LedgerHolds(cfg, s) && Enabled(cfg, s, Admit(k))
    ensures LedgerHolds(cfg, AdmitTask(cfg, s, k))
  {
    var s' := AdmitTask(cfg, s, k);
    assert IsSoundTask(cfg, s.tasks[k]);
    EstimateIsReservation(cfg, s.tasks[k]);
    TotalsOfTask(s, s', k);
    OverrunCovers(cfg, s);
  }

  lemma TotalsOfTask(s: State, s': State, k: nat)
    requires k < |s.tasks| == |s'.tasks| && s'.nodes == s.nodes && s'.tasks == s.tasks[k := s'.tasks[k]]
    ensures forall c {:trigger Total(c, s')} ::
        Total(c, s') == Total(c, s) - TaskValue(c, s.tasks[k]) + TaskValue(c, s'.tasks[k])
  {
    forall c {
      TotalTask(c, s, s', k);
    }
  }

  lemma FinishLedger(cfg: BudgetConfig, s: State, k: nat, outcome: Outcome)
    requires IsSound(cfg, s) && LedgerHolds(cfg, s) && Enabled(cfg, s, Finish(k, outcome))
    ensures LedgerHolds(cfg, FinishTask(cfg, s, k, outcome))
  {
    assert IsSoundTask(cfg, s.tasks[k]);
    TotalsOfTask(s, FinishTask(cfg, s, k, outcome), k);
  }

  lemma LedgerStep(cfg: BudgetConfig, s: State, e: Event)
    requires IsSound(cfg, s) && LedgerHolds(cfg, s) && Enabled(cfg, s, e)
    ensures LedgerHolds(cfg, Step(cfg, s, e))
  {
    match e
    case Admit(k) => AdmitLedger(cfg, s, k);
    case Finish(k, outcome) => FinishLedger(cfg, s, k, outcome);
    case Append(k) =>
      forall c {
        TotalAppend(c, s, k);
      }
    case Decompose(answers) =>
      forall c {
        TotalDecompose(c, s, answers);
      }
  }

  /** In every reachable state, for every interleaving: the used column is the sum over finished nodes; the reserved
      column is what is in flight plus min(reserved, used) of every finished node; the node count counts the admitted
      ones; and what is used or in flight exceeds the budget by no more than the nodes' own overruns. */
  lemma {:induction false} LedgerInEveryRun(cfg: BudgetConfig, query: string, events: seq<Event>)
    requires Execute(cfg, query, events).Some?
    ensures IsSound(cfg, Execute(cfg, query, events).value)
    ensures LedgerHolds(cfg, Execute(cfg, query, events).value)
  {
    if events != [] {
      var n := |events| - 1;
      LedgerInEveryRun(cfg, query, events[..n]);
      var s := Execute(cfg, query, events[..n]).value;
      SoundStep(cfg, s, events[n]);
      LedgerStep(cfg, s, events[n]);
    } else {
      InitialLedger(cfg, query);
    }
  }

  lemma InitialLedger(cfg: BudgetConfig, query: string)
    ensures IsSound(cfg, Initial(query)) && LedgerHolds(cfg, Initial(query))
  {
    var s := Initial(query);
    forall c
      ensures Total(c, s) == 0
    {
      assert TaskValues(c, s.tasks) == [0];
      SumAppend([], 0);
      assert [] + [0] == [0];
    }
  }

  /** The budget is never exceeded as long as no finished node used more than it had reserved. */
  lemma BudgetRespected(cfg: BudgetConfig, query: string, events: seq<Event>)
    requires cfg.tokenBudget >= 0 && Execute(cfg, query, events).Some?
    ensures
      var s := Execute(cfg, query, events).value;
      (&& (forall i :: 0 <= i < |s.nodes| ==> s.nodes[i].tokensUsed <= s.nodes[i].reservedTokens)
       && (forall k :: 0 <= k < |s.tasks| && s.tasks[k].phase.Settled? ==>
             s.tasks[k].node.tokensUsed <= s.tasks[k].node.reservedTokens))
      ==> s.ledger.used + Total(Reserving, s) <= cfg.tokenBudget
  {
    LedgerInEveryRun(cfg, query, events);
    var s := Execute(cfg, query, events).value;
    hide IsSound, Execute;
    if && (forall i :: 0 <= i < |s.nodes| ==> s.nodes[i].tokensUsed <= s.nodes[i].reservedTokens)
       && (forall k :: 0 <= k < |s.tasks| && s.tasks[k].phase.Settled? ==>
             s.tasks[k].node.tokensUsed <= s.tasks[k].node.reservedTokens)
    {
      NoOverrun(s);
    }
  }

  lemma NoOverrun(s: State)
    requires forall i :: 0 <= i < |s.nodes| ==> s.nodes[i].tokensUsed <= s.nodes[i].reservedTokens
    requires forall k :: 0 <= k < |s.tasks| && s.tasks[k].phase.Settled? ==>
        s.tasks[k].node.tokensUsed <= s.tasks[k].node.reservedTokens
    ensures Total(Overrun, s) == 0
  {
    SumBounds(NodeValues(Overrun, s.nodes), 0);
    SumBounds(TaskValues(Overrun, s.tasks), 0);
  }

  /** Spent tokens count twice against the budget: on top of the used column, min(reserved, used) of every finished
      node is never given back, so a node is admitted exactly when both still leave room for its estimate. */
  lemma AdmissionCountsUsageTwice(cfg: BudgetConfig, query: string, events: seq<Event>, k: nat)
    requires Execute(cfg, query, events).Some? && Enabled(cfg, Execute(cfg, query, events).value, Admit(k))
    ensures
      var s := Execute(cfg, query, events).value;
      var t := s.tasks[k];
      AdmitTask(cfg, s, k).tasks[k].phase.Fanning?
      <==> && Total(Tokens, s) + Total(Retained, s) + Total(Reserving, s) + ReservedAmount(t.node, t.parentTokens, cfg)
                <= cfg.tokenBudget
           && Total(Admitted, s) < MaxNodes(cfg.breadth, cfg.depth)
  {
    LedgerInEveryRun(cfg, query, events);
    var s := Execute(cfg, query, events).value;
    assert IsSoundTask(cfg, s.tasks[k]);
    EstimateIsReservation(cfg, s.tasks[k]);
  }

  /** The code's idea of "fits": spent tokens, reservations in flight and the node's own estimate, each once. */
  predicate Fits(cfg: BudgetConfig, s: State, k: nat)
    requires k < |s.tasks|
  {
    && Total(Tokens, s) + Total(Reserving, s) + ReservedAmount(s.tasks[k].node, s.tasks[k].parentTokens, cfg)
         <= cfg.tokenBudget
    && Total(Admitted, s) < MaxNodes(cfg.breadth, cfg.depth)
  }

  /** A node that fits is refused if and only if what finished nodes retain pushes it over the budget. */
  lemma RefusedAlthoughItFits(cfg: BudgetConfig, query: string, events: seq<Event>, k: nat)
    requires Execute(cfg, query, events).Some? && Enabled(cfg, Execute(cfg, query, events).value, Admit(k))
    ensures
      var s := Execute(cfg, query, events).value;
      var t := s.tasks[k];
      Fits(cfg, s, k) && AdmitTask(cfg, s, k).tasks[k].node.status.BudgetExceeded?
      <==> && Fits(cfg, s, k)
           && Total(Tokens, s) + Total(Reserving, s) + ReservedAmount(t.node, t.parentTokens, cfg)
                > cfg.tokenBudget - Total(Retained, s)
  {
    AdmissionCountsUsageTwice(cfg, query, events, k);
    var s := Execute(cfg, query, events).value;
    hide Execute, Total, ReservedAmount;
    assert AdmitTask(cfg, s, k).tasks[k].phase.Fanning? <==> !AdmitTask(cfg, s, k).tasks[k].node.status.BudgetExceeded?;
  }

  /** Such a node: with a budget of 5, a root that reserved 5 and used 2 leaves 2 retained, and its child, who asks for
      2, is refused although 2 + 2 is well within 5. */
  lemma RetainedTokensRefuse(query: string) returns (cfg: BudgetConfig, events: seq<Event>)
    ensures Execute(cfg, query, events).Some? && Enabled(cfg, Execute(cfg, query, events).value, Admit(0))
    ensures
      var s := Execute(cfg, query, events).value;
      Fits(cfg, s, 0) && AdmitTask(cfg, s, 0).tasks[0].node.status.BudgetExceeded?
  {
    cfg := BudgetConfig(5, 1, 1, 5, 0.0);
    var s;
    events, s := RootUsesTwo(cfg, query);
    OneChild(s);
    hide Execute, DecomposeAll;
    events, s := Play(cfg, query, events, s, Decompose([Some(["q"])]));
    LedgerInEveryRun(cfg, query, events);
    hide IsSound, LedgerHolds;
    ChildRefused(cfg, s);
  }

  lemma RootUsesTwo(cfg: BudgetConfig, query: string) returns (events: seq<Event>, s: State)
    requires cfg == BudgetConfig(5, 1, 1, 5, 0.0)
    ensures Execute(cfg, query, events) == Some(s) && s.level == 0 && s.ledger == Ledger(2, 2, 1) && AllRecorded(s.tasks)
    ensures |s.nodes| == 1 && InFrontier(s.nodes[0], 0) && s.nodes[0].tokensUsed == 2
  {
    assert Power(1, 1) == 1 && MaxNodes(1, 1) == 2;
    events, s := [], Initial(query);
    events, s := Play(cfg, query, events, s, Admit(0));
    events, s := Play(cfg, query, events, s, Finish(0, Answer([], [], 2)));
    events, s := Play(cfg, query, events, s, Append(0));
  }

  lemma ChildRefused(cfg: BudgetConfig, s: State)
    requires cfg == BudgetConfig(5, 1, 1, 5, 0.0) && LedgerHolds(cfg, s) && s.ledger == Ledger(2, 2, 1)
    requires |s.tasks| == 1 && s.tasks[0].phase.Waiting? && s.tasks[0].parentTokens == 2
    requires !s.tasks[0].node.IsRoot() && s.tasks[0].node.tokensUsed == 0
    ensures Fits(cfg, s, 0) && AdmitTask(cfg, s, 0).tasks[0].node.status.BudgetExceeded?
  {
    assert Power(1, 1) == 1 && MaxNodes(1, 1) == 2;
    SumBounds(TaskValues(Reserving, s.tasks), 0);
    SumBounds(NodeValues(Reserving, s.nodes), 0);
    assert Total(Reserving, s) == 0;
    hide Total;
  }

  lemma OneChild(s: State)
    requires |s.nodes| == 1 && s.level == 0 && InFrontier(s.nodes[0], 0) && s.nodes[0].tokensUsed == 2
    ensures
      var s' := DecomposeAll(s, [Some(["q"])]);
      && |s'.tasks| == 1 && s'.tasks[0].phase.Waiting? && s'.tasks[0].parentTokens == 2
      && s'.ledger == s.ledger && !s'.tasks[0].node.IsRoot() && s'.tasks[0].node.tokensUsed == 0
  {
    var answers := [Some(["q"])];
    assert Children(s.nodes, answers, 0, 0) == [];
    assert Children(s.nodes, answers, 0, 1) == ChildrenOf(s.nodes[0], answers[0].value);
  }
}
