/** The level-by-level expansion of internal/deepagent/tree.go as a state machine. The goroutines of one level run
    against the shared ledger in any order; every locked section is one step. */
module Tree {
  import opened Prelude
  import opened Budget

  /** Where a goroutine stands: before PreCheck, inside Fanout, done with the ledger, or appended to the node list. */
  datatype Phase = Waiting | Fanning | Settled | Recorded

  datatype Task = Task(node: Node, parentTokens: int, phase: Phase)

  datatype State = State(ledger: Ledger, nodes: seq<Node>, tasks: seq<Task>, level: nat)

  /** The answer of one Fanout call; a timeout or a cancelled context is an error too. */
  datatype Outcome = Error | Answer(citations: seq<Citation>, claims: seq<Claim>, tokens: nat)

  /** `Decompose` carries, per recorded node, the sub-queries of that node or None for an error; entries of nodes
      outside the frontier are not looked at. */
  datatype Event =
    | Admit(k: nat)
    | Finish(k: nat, outcome: Outcome)
    | Append(k: nat)
    | Decompose(answers: seq<Option<seq<string>>>)

  function RootNode(query: string): Node {
    Node([], 0, None, 0, query, Pending, [], [], 0, 0, 0.0)
  }

  function Initial(query: string): State {
    State(Ledger(0, 0, 0), [], [Task(RootNode(query), 0, Waiting)], 0)
  }

  /** The record handed to PreCheck: the node itself, or a stand-in that carries its parent's usage. */
  function PreCheckNode(node: Node, parentTokens: int): Node {
    if parentTokens > 0
    then Node(node.id, node.depth, node.parentId, 0, "", Pending, [], [], parentTokens, 0, 0.0)
    else node
  }

  /** What the node itself writes down as its reservation. */
  function ReservedAmount(node: Node, parentTokens: int, cfg: BudgetConfig): int {
    if node.IsRoot() then cfg.rootEstimate else Headroom(parentTokens, cfg.breadth)
  }

  function AdmitTask(cfg: BudgetConfig, s: State, k: nat): State
    requires k < |s.tasks|
  {
    var t := s.tasks[k];
    var estimate := Estimate(PreCheckNode(t.node, t.parentTokens), cfg);
    if TokensSuffice(s.ledger, estimate, cfg) && BelowCap(s.ledger, cfg) then
      var node := t.node.(status := Expanding, reservedTokens := ReservedAmount(t.node, t.parentTokens, cfg));
      s.(ledger := s.ledger.(reserved := s.ledger.reserved + estimate),
         tasks := s.tasks[k := t.(node := node, phase := Fanning)])
    else
      s.(tasks := s.tasks[k := t.(node := t.node.(status := BudgetExceeded), phase := Settled)])
  }

  function Finished(cfg: BudgetConfig, node: Node, outcome: Outcome): Node {
    match outcome
    case Error => node.(status := Failed)
    case Answer(citations, claims, tokens) =>
      node.(status := Complete, citations := citations, claims := claims, tokensUsed := tokens,
            costUsd := CostOf(cfg, tokens))
  }

  function Charged(outcome: Outcome): nat {
    if outcome.Error? then 0 else outcome.tokens
  }

  function FinishTask(cfg: BudgetConfig, s: State, k: nat, outcome: Outcome): State
    requires k < |s.tasks|
  {
    var t := s.tasks[k];
    var actual := Charged(outcome);
    var kept := Min(t.node.reservedTokens, actual);
    s.(ledger := Ledger(s.ledger.used + actual, s.ledger.reserved - t.node.reservedTokens + kept, s.ledger.nodes + 1),
       tasks := s.tasks[k := t.(node := Finished(cfg, t.node, outcome), phase := Settled)])
  }

  function AppendTask(s: State, k: nat): State
    requires k < |s.tasks|
  {
    s.(nodes := s.nodes + [s.tasks[k].node], tasks := s.tasks[k := s.tasks[k].(phase := Recorded)])
  }

  predicate InFrontier(node: Node, level: nat) {
    node.depth == level && node.status == Complete
  }

  /** A frontier node whose decomposition failed is marked failed, although its own answer stands. */
  function AfterDecompose(nodes: seq<Node>, answers: seq<Option<seq<string>>>, level: nat): (r: seq<Node>)
    requires |answers| == |nodes|
    ensures |r| == |nodes|
  {
    seq(|nodes|, i requires 0 <= i < |nodes| =>
      if InFrontier(nodes[i], level) && answers[i].None? then nodes[i].(status := Failed) else nodes[i])
  }

  function ChildrenOf(parent: Node, queries: seq<string>): (r: seq<Node>)
    ensures |r| == |queries|
  {
    seq(|queries|, i requires 0 <= i < |queries| =>
      Node(parent.id + [i], parent.depth + 1, Some(parent.id), i, queries[i], Pending, [], [], 0, 0, 0.0))
  }

  /** The children of the first `n` recorded nodes, in order. */
  function Children(nodes: seq<Node>, answers: seq<Option<seq<string>>>, level: nat, n: nat): seq<Node>
    requires n <= |nodes| == |answers|
  {
    if n == 0 then []
    else
      var own := if InFrontier(nodes[n - 1], level) && answers[n - 1].Some?
                 then ChildrenOf(nodes[n - 1], answers[n - 1].value) else [];
      Children(nodes, answers, level, n - 1) + own
  }

  /** The usage of the first recorded node with this id, or 0. */
  function ParentTokens(nodes: seq<Node>, id: Id): int {
    if nodes == [] then 0
    else if nodes[0].id == id then nodes[0].tokensUsed
    else ParentTokens(nodes[1..], id)
  }

  function NewTasks(nodes: seq<Node>, children: seq<Node>): (r: seq<Task>)
    ensures |r| == |children|
  {
    seq(|children|, i requires 0 <= i < |children| =>
      Task(children[i],
           if children[i].parentId.Some? then ParentTokens(nodes, children[i].parentId.value) else 0,
           Waiting))
  }

  function DecomposeAll(s: State, answers: seq<Option<seq<string>>>): State
    requires |answers| == |s.nodes|
  {
    var nodes := AfterDecompose(s.nodes, answers, s.level);
    State(s.ledger, nodes, NewTasks(nodes, Children(s.nodes, answers, s.level, |s.nodes|)), s.level + 1)
  }

  predicate AllRecorded(tasks: seq<Task>) {
    forall k :: 0 <= k < |tasks| ==> tasks[k].phase.Recorded?
  }

  predicate Enabled(cfg: BudgetConfig, s: State, e: Event) {
    match e
    case Admit(k) => k < |s.tasks| && s.tasks[k].phase.Waiting?
    case Finish(k, _) => k < |s.tasks| && s.tasks[k].phase.Fanning?
    case Append(k) => k < |s.tasks| && s.tasks[k].phase.Settled?
    case Decompose(answers) =>
      && s.level < cfg.depth
      && AllRecorded(s.tasks)
      && |answers| == |s.nodes|
      && exists i :: 0 <= i < |s.nodes| && InFrontier(s.nodes[i], s.level)
  }

  function Step(cfg: BudgetConfig, s: State, e: Event): State
    requires Enabled(cfg, s, e)
  {
    match e
    case Admit(k) => AdmitTask(cfg, s, k)
    case Finish(k, outcome) => FinishTask(cfg, s, k, outcome)
    case Append(k) => AppendTask(s, k)
    case Decompose(answers) => DecomposeAll(s, answers)
  }

  /** The state after the events, from the single waiting root; None if one of them was not enabled. */
  function Execute(cfg: BudgetConfig, query: string, events: seq<Event>): Option<State> {
    if events == [] then Some(Initial(query))
    else
      match Execute(cfg, query, events[..|events| - 1])
      case None => None
      case Some(s) =>
        var e := events[|events| - 1];
        if Enabled(cfg, s, e) then Some(Step(cfg, s, e)) else None
  }

  lemma ExecuteExtend(cfg: BudgetConfig, query: string, events: seq<Event>, e: Event, s: State)
    requires Execute(cfg, query, events) == Some(s) && Enabled(cfg, s, e)
    ensures Execute(cfg, query, events + [e]) == Some(Step(cfg, s, e))
  {
    assert (events + [e])[..|events|] == events;
  }

  /** Takes one enabled step. */
  lemma Play(cfg: BudgetConfig, query: string, events: seq<Event>, s: State, e: Event)
      returns (events': seq<Event>, s': State)
    requires Execute(cfg, query, events) == Some(s) && Enabled(cfg, s, e)
    ensures events' == events + [e] && s' == Step(cfg, s, e)
    ensures Execute(cfg, query, events') == Some(s')
  {
    ExecuteExtend(cfg, query, events, e, s);
    events', s' := events + [e], Step(cfg, s, e);
  }
}
