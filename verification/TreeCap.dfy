/** The structural cap of 1 + breadth + ... + breadth^depth nodes. */
module TreeCap {
  import opened Prelude
  import opened Sums
  import opened Budget
  import opened Tree
  import opened TreeLedger
  import opened TreeShape

  /** Tasks that are not appended yet. */
  function OpenFlags(tasks: seq<Task>): (r: seq<int>)
    ensures |r| == |tasks|
  {
    seq(|tasks|, k requires 0 <= k < |tasks| => if tasks[k].phase.Recorded? then 0 else 1)
  }

  /** Nodes of one level among the first `n`. */
  function LevelCount(nodes: seq<Node>, level: nat, n: nat): nat
    requires n <= |nodes|
  {
    if n == 0 then 0 else LevelCount(nodes, level, n - 1) + if nodes[n - 1].depth == level then 1 else 0
  }

  /** No decomposition of the run returned more than m sub-queries. */
  predicate WithinBound(m: nat, events: seq<Event>) {
    forall k :: 0 <= k < |events| && events[k].Decompose? ==> AnswersWithin(m, events[k].answers)
  }

  predicate AnswersWithin(m: nat, answers: seq<Option<seq<string>>>) {
    forall i :: 0 <= i < |answers| && answers[i].Some? ==> |answers[i].value| <= m
  }

  ghost predicate CountHolds(cfg: BudgetConfig, s: State) {
    && |s.tasks| <= Power(cfg.breadth, s.level)
    && LevelCount(s.nodes, s.level, |s.nodes|) + Sum(OpenFlags(s.tasks)) == |s.tasks|
    && |s.nodes| + Sum(OpenFlags(s.tasks)) <= MaxNodes(cfg.breadth, s.level)
  }

  lemma {:induction false} ChildrenCount(
    cfg: BudgetConfig, nodes: seq<Node>, answers: seq<Option<seq<string>>>, level: nat, n: nat)
    requires n <= |nodes| == |answers| && AnswersWithin(cfg.breadth, answers)
    ensures |Children(nodes, answers, level, n)| <= cfg.breadth * LevelCount(nodes, level, n)
  {
    if n > 0 {
      ChildrenCount(cfg, nodes, answers, level, n - 1);
      Distribute(cfg.breadth, LevelCount(nodes, level, n - 1));
    }
  }

  lemma Distribute(b: nat, x: nat)
    ensures b * (x + 1) == b * x + b
  {
  }

  lemma {:induction false} LevelCountAppend(nodes: seq<Node>, x: Node, level: nat, n: nat)
    requires n <= |nodes|
    ensures LevelCount(nodes + [x], level, n) == LevelCount(nodes, level, n)
  {
    if n > 0 {
      LevelCountAppend(nodes, x, level, n - 1);
    }
  }

  lemma {:induction false} LevelCountZero(nodes: seq<Node>, level: nat, n: nat)
    requires n <= |nodes| && forall i :: 0 <= i < n ==> nodes[i].depth != level
    ensures LevelCount(nodes, level, n) == 0
  {
    if n > 0 {
      LevelCountZero(nodes, level, n - 1);
    }
  }

  lemma TaskKeepsCount(cfg: BudgetConfig, s: State, s': State, k: nat)
    requires CountHolds(cfg, s) && k < |s.tasks| == |s'.tasks|
    requires s'.nodes == s.nodes && s'.level == s.level && s'.tasks == s.tasks[k := s'.tasks[k]]
    requires !s.tasks[k].phase.Recorded? && !s'.tasks[k].phase.Recorded?
    ensures CountHolds(cfg, s')
  {
    assert OpenFlags(s'.tasks) == OpenFlags(s.tasks);
  }

  lemma AppendKeepsCount(cfg: BudgetConfig, s: State, k: nat)
    requires CountHolds(cfg, s) && k < |s.tasks| && s.tasks[k].phase.Settled? && s.tasks[k].node.depth == s.level
    ensures CountHolds(cfg, AppendTask(s, k))
  {
    var s' := AppendTask(s, k);
    assert OpenFlags(s'.tasks) == OpenFlags(s.tasks)[k := 0];
    SumUpdate(OpenFlags(s.tasks), k, 0);
    LevelCountAppend(s.nodes, s.tasks[k].node, s.level, |s.nodes|);
  }

  lemma {:induction false} AllOnes(s: seq<int>)
    requires forall k :: 0 <= k < |s| ==> s[k] == 1
    ensures Sum(s) == |s|
  {
    if s != [] {
      AllOnes(s[..|s| - 1]);
    }
  }

  lemma DecomposeKeepsCount(cfg: BudgetConfig, s: State, answers: seq<Option<seq<string>>>)
    requires CountHolds(cfg, s) && Enabled(cfg, s, Decompose(answers)) && AnswersWithin(cfg.breadth, answers)
    requires forall i :: 0 <= i < |s.nodes| ==> s.nodes[i].depth <= s.level
    ensures CountHolds(cfg, DecomposeAll(s, answers))
  {
    SumBounds(OpenFlags(s.tasks), 0);
    hide AnswersWithin, Children, AfterDecompose, NewTasks, InFrontier, LevelCount, OpenFlags, DecomposeAll, AllRecorded;
    ChildrenFit(cfg, s, answers);
    FreshLevel(s, answers);
    NextLevelCount(cfg, DecomposeAll(s, answers), s.level, |s.nodes|);
  }

  lemma NextLevelCount(cfg: BudgetConfig, s: State, level: nat, recorded: nat)
    requires s.level == level + 1 && |s.nodes| == recorded <= MaxNodes(cfg.breadth, level)
    requires |s.tasks| <= Power(cfg.breadth, level + 1) && Sum(OpenFlags(s.tasks)) == |s.tasks|
    requires LevelCount(s.nodes, level + 1, |s.nodes|) == 0
    ensures CountHolds(cfg, s)
  {
    assert MaxNodes(cfg.breadth, level + 1) == MaxNodes(cfg.breadth, level) + Power(cfg.breadth, level + 1);
    hide Power, MaxNodes, LevelCount, OpenFlags;
  }

  lemma ChildrenFit(cfg: BudgetConfig, s: State, answers: seq<Option<seq<string>>>)
    requires CountHolds(cfg, s) && |answers| == |s.nodes| && AnswersWithin(cfg.breadth, answers)
    requires Sum(OpenFlags(s.tasks)) == 0
    ensures |Children(s.nodes, answers, s.level, |s.nodes|)| <= Power(cfg.breadth, s.level + 1)
  {
    ChildrenCount(cfg, s.nodes, answers, s.level, |s.nodes|);
    MultiplyUp(cfg.breadth, LevelCount(s.nodes, s.level, |s.nodes|), Power(cfg.breadth, s.level));
    hide AnswersWithin, Children, LevelCount, OpenFlags;
  }

  lemma FreshLevel(s: State, answers: seq<Option<seq<string>>>)
    requires |answers| == |s.nodes|
    requires forall i :: 0 <= i < |s.nodes| ==> s.nodes[i].depth <= s.level
    ensures
      var s' := DecomposeAll(s, answers);
      && Sum(OpenFlags(s'.tasks)) == |s'.tasks| == |Children(s.nodes, answers, s.level, |s.nodes|)|
      && LevelCount(s'.nodes, s.level + 1, |s'.nodes|) == 0 && |s'.nodes| == |s.nodes| && s'.level == s.level + 1
  {
    hide Children;
    var s' := DecomposeAll(s, answers);
    AllOnes(OpenFlags(s'.tasks));
    LevelCountZero(s'.nodes, s'.level, |s'.nodes|);
  }

  lemma MultiplyUp(b: nat, x: int, y: int)
    requires x <= y
    ensures b * x <= y * b
  {
    assert y * b - b * x == b * (y - x);
  }

  /** When no decomposition exceeds the breadth, a run never holds more nodes than the cap allows for its level. */
  lemma {:induction false} CountInEveryRun(cfg: BudgetConfig, query: string, events: seq<Event>)
    requires Execute(cfg, query, events).Some? && WithinBound(cfg.breadth, events)
    ensures CountHolds(cfg, Execute(cfg, query, events).value)
  {
    if events == [] {
      var s := Initial(query);
      assert OpenFlags(s.tasks) == [1];
      AllOnes(OpenFlags(s.tasks));
    } else {
      var n := |events| - 1;
      var s, e := Execute(cfg, query, events[..n]).value, events[n];
      CountInEveryRun(cfg, query, events[..n]);
      ShapeInEveryRun(cfg, query, events[..n]);
      DepthsBounded(cfg, s);
      hide HasShape;
      match e
      case Admit(k) => TaskKeepsCount(cfg, s, Step(cfg, s, e), k);
      case Finish(k, outcome) => TaskKeepsCount(cfg, s, Step(cfg, s, e), k);
      case Append(k) => AppendKeepsCount(cfg, s, k);
      case Decompose(answers) => DecomposeKeepsCount(cfg, s, answers);
    }
  }

  lemma DepthsBounded(cfg: BudgetConfig, s: State)
    requires HasShape(cfg, s)
    ensures s.level <= cfg.depth
    ensures forall i :: 0 <= i < |s.nodes| ==> s.nodes[i].depth <= s.level
    ensures forall k :: 0 <= k < |s.tasks| ==> s.tasks[k].node.depth == s.level
  {
  }

  lemma {:induction false} MaxNodesMonotone(b: nat, d: nat, depth: nat)
    requires d <= depth
    ensures MaxNodes(b, d) <= MaxNodes(b, depth)
    decreases depth - d
  {
    if d < depth {
      MaxNodesMonotone(b, d + 1, depth);
    }
  }

  lemma {:induction false} SumStrictlyBelow(s: seq<int>, t: seq<int>, k: nat)
    requires |s| == |t| && k < |s| && s[k] < t[k]
    requires forall i :: 0 <= i < |s| ==> s[i] <= t[i]
    ensures Sum(s) < Sum(t)
  {
    var n := |s| - 1;
    if k < n {
      SumStrictlyBelow(s[..n], t[..n], k);
    } else {
      SumBelow(s[..n], t[..n]);
    }
  }

  lemma {:induction false} SumBelow(s: seq<int>, t: seq<int>)
    requires |s| == |t| && forall i :: 0 <= i < |s| ==> s[i] <= t[i]
    ensures Sum(s) <= Sum(t)
  {
    if s != [] {
      SumBelow(s[..|s| - 1], t[..|t| - 1]);
    }
  }

  /** Then the structural cap never turns a node away: every refusal is about tokens. */
  lemma CapNeverRejects(cfg: BudgetConfig, query: string, events: seq<Event>, k: nat)
    requires WithinBound(cfg.breadth, events)
    requires Execute(cfg, query, events).Some? && Enabled(cfg, Execute(cfg, query, events).value, Admit(k))
    ensures BelowCap(Execute(cfg, query, events).value.ledger, cfg)
  {
    var s := Execute(cfg, query, events).value;
    CountInEveryRun(cfg, query, events);
    LedgerInEveryRun(cfg, query, events);
    ShapeInEveryRun(cfg, query, events);
    DepthsBounded(cfg, s);
    hide Execute, HasShape, IsSound;
    RoomForWaiting(cfg, s, k);
    MaxNodesMonotone(cfg.breadth, s.level, cfg.depth);
  }

  lemma RoomForWaiting(cfg: BudgetConfig, s: State, k: nat)
    requires CountHolds(cfg, s) && k < |s.tasks| && s.tasks[k].phase.Waiting?
    ensures Total(Admitted, s) < MaxNodes(cfg.breadth, s.level)
  {
    SumStrictlyBelow(TaskValues(Admitted, s.tasks), OpenFlags(s.tasks), k);
    SumBounds(NodeValues(Admitted, s.nodes), 1);
  }

  // ---------- the cap itself ----------

  /** More nodes were admitted and finished than the cap allows. */
  ghost predicate Overrun(cfg: BudgetConfig, query: string, events: seq<Event>)
    requires Execute(cfg, query, events).Some?
  {
    Execute(cfg, query, events).value.ledger.nodes > MaxNodes(cfg.breadth, cfg.depth)
  }

  /** Within the breadth, no run gets past the cap. */
  lemma CapKept(cfg: BudgetConfig, query: string, events: seq<Event>)
    requires Execute(cfg, query, events).Some? && WithinBound(cfg.breadth, events)
    ensures !Overrun(cfg, query, events)
  {
    var s := Execute(cfg, query, events).value;
    CountInEveryRun(cfg, query, events);
    LedgerInEveryRun(cfg, query, events);
    ShapeInEveryRun(cfg, query, events);
    DepthsBounded(cfg, s);
    hide Execute, HasShape, IsSound;
    AdmittedCounted(cfg, s);
    MaxNodesMonotone(cfg.breadth, s.level, cfg.depth);
    hide CountHolds, Total, MaxNodes;
  }

  lemma AdmittedCounted(cfg: BudgetConfig, s: State)
    requires CountHolds(cfg, s)
    ensures Total(Admitted, s) <= MaxNodes(cfg.breadth, s.level)
  {
    SumBelow(TaskValues(Admitted, s.tasks), OpenFlags(s.tasks));
    SumBounds(NodeValues(Admitted, s.nodes), 1);
  }

  /** A root whose estimate exceeds the whole budget is refused, and nothing else is ever tried. */
  lemma {:induction false} RootTooDear(cfg: BudgetConfig, query: string, events: seq<Event>)
    requires cfg.rootEstimate > cfg.tokenBudget && Execute(cfg, query, events).Some?
    ensures
      var s := Execute(cfg, query, events).value;
      && s.ledger == Ledger(0, 0, 0) && s.level == 0 && |s.tasks| == 1
      && s.tasks[0].node.IsRoot() && s.tasks[0].parentTokens == 0 && !s.tasks[0].phase.Fanning?
      && !s.tasks[0].node.status.Complete? && forall i :: 0 <= i < |s.nodes| ==> !s.nodes[i].status.Complete?
  {
    if events != [] {
      RootTooDear(cfg, query, events[..|events| - 1]);
    }
  }

  // ---------- a run past the cap: every level full, the last one with one sub-query too many per node ----------

  lemma {:induction false} PowerPositive(b: nat, e: nat)
    requires b > 0
    ensures Power(b, e) > 0
  {
    if e > 0 {
      PowerPositive(b, e - 1);
    }
  }

  lemma NextPower(b: nat, level: nat)
    ensures Power(b, 0) == MaxNodes(b, 0) == 1
    ensures level > 0 ==> Power(b, level) == b * Power(b, level - 1)
    ensures level > 0 ==> MaxNodes(b, level) == MaxNodes(b, level - 1) + Power(b, level)
  {
  }

  lemma MaxNodesStrict(b: nat, d: nat, depth: nat)
    requires b > 0 && d < depth
    ensures MaxNodes(b, d) < MaxNodes(b, depth)
  {
    PowerPositive(b, d + 1);
    MaxNodesMonotone(b, d + 1, depth);
  }

  function Uniform(n: nat, width: nat): (answers: seq<Option<seq<string>>>)
    ensures |answers| == n && forall i :: 0 <= i < n ==> answers[i].Some? && |answers[i].value| == width
  {
    seq(n, i => Some(seq(width, j => "")))
  }

  /** A finished node that used nothing. */
  predicate IsQuiet(n: Node, level: nat) {
    n.status.Complete? && n.tokensUsed == 0 && n.depth <= level
  }

  predicate IsFresh(t: Task, level: nat) {
    && t.phase.Waiting? && t.parentTokens == 0 && t.node.tokensUsed == 0
    && t.node.depth == level && t.node.parentId.Some?
  }

  predicate IsRunning(t: Task, level: nat) {
    t.phase.Fanning? && t.node.reservedTokens == 0 && t.node.depth == level
  }

  predicate IsDone(t: Task, level: nat) {
    t.phase.Settled? && t.node.depth == level && IsQuiet(t.node, level)
  }

  /** Between two phases: the ledger holds nothing but what the root left, and all recorded nodes are quiet. */
  predicate IsCalm(s: State, level: nat, root: int, count: nat, nodes: nat) {
    && s.level == level && s.ledger == Ledger(0, root, nodes)
    && (forall i :: 0 <= i < |s.nodes| ==> IsQuiet(s.nodes[i], level))
    && LevelCount(s.nodes, level, |s.nodes|) == count
  }

  lemma AdmitFresh(cfg: BudgetConfig, s: State, level: nat, root: int, count: nat, nodes: nat, k: nat)
    requires IsCalm(s, level, root, count, nodes) && root <= cfg.tokenBudget && nodes < MaxNodes(cfg.breadth, cfg.depth)
    requires k < |s.tasks| && IsFresh(s.tasks[k], level)
    ensures Enabled(cfg, s, Admit(k))
    ensures
      var s' := Step(cfg, s, Admit(k));
      && s'.tasks == s.tasks[k := s'.tasks[k]] && IsRunning(s'.tasks[k], level)
      && s' == s.(tasks := s'.tasks)
  {
  }

  lemma FinishRunning(cfg: BudgetConfig, s: State, level: nat, root: int, count: nat, nodes: nat, k: nat)
    requires IsCalm(s, level, root, count, nodes) && k < |s.tasks| && IsRunning(s.tasks[k], level)
    ensures Enabled(cfg, s, Finish(k, Answer([], [], 0)))
    ensures
      var s' := Step(cfg, s, Finish(k, Answer([], [], 0)));
      && s'.tasks == s.tasks[k := s'.tasks[k]] && IsDone(s'.tasks[k], level)
      && IsCalm(s', level, root, count, nodes + 1)
  {
  }

  lemma AppendDone(cfg: BudgetConfig, s: State, level: nat, root: int, count: nat, nodes: nat, k: nat)
    requires IsCalm(s, level, root, count, nodes) && k < |s.tasks| && IsDone(s.tasks[k], level)
    ensures Enabled(cfg, s, Append(k))
    ensures
      var s' := Step(cfg, s, Append(k));
      && s'.tasks == s.tasks[k := s'.tasks[k]] && s'.tasks[k].phase.Recorded?
      && IsCalm(s', level, root, count + 1, nodes)
  {
    LevelCountAppend(s.nodes, s.tasks[k].node, level, |s.nodes|);
  }

  lemma BoundExtend(m: nat, events: seq<Event>, e: Event)
    requires WithinBound(m, events) && (e.Decompose? ==> AnswersWithin(m, e.answers))
    ensures WithinBound(m, events + [e])
  {
  }

  /** All fresh tasks of a level are admitted before any of them finishes. */
  lemma AdmitAll(
    cfg: BudgetConfig, query: string, m: nat, before: seq<Event>, start: State, root: int, count: nat, nodes: nat)
      returns (events: seq<Event>, s: State)
    requires Execute(cfg, query, before) == Some(start) && WithinBound(m, before)
    requires IsCalm(start, start.level, root, count, nodes)
    requires root <= cfg.tokenBudget && nodes < MaxNodes(cfg.breadth, cfg.depth)
    requires forall k :: 0 <= k < |start.tasks| ==> IsFresh(start.tasks[k], start.level)
    ensures Execute(cfg, query, events) == Some(s) && WithinBound(m, events)
    ensures IsCalm(s, start.level, root, count, nodes) && |s.tasks| == |start.tasks|
    ensures forall k :: 0 <= k < |s.tasks| ==> IsRunning(s.tasks[k], start.level)
  {
    hide Execute, Enabled, Step, WithinBound, IsFresh, IsRunning, MaxNodes;
    events, s := before, start;
    for k := 0 to |start.tasks|
      invariant Execute(cfg, query, events) == Some(s) && WithinBound(m, events)
      invariant IsCalm(s, start.level, root, count, nodes) && |s.tasks| == |start.tasks|
      invariant forall j :: 0 <= j < k ==> IsRunning(s.tasks[j], start.level)
      invariant forall j :: k <= j < |s.tasks| ==> IsFresh(s.tasks[j], start.level)
    {
      AdmitFresh(cfg, s, start.level, root, count, nodes, k);
      BoundExtend(m, events, Admit(k));
      events, s := Play(cfg, query, events, s, Admit(k));
    }
  }

  lemma FinishAll(
    cfg: BudgetConfig, query: string, m: nat, before: seq<Event>, start: State, root: int, count: nat, nodes: nat)
      returns (events: seq<Event>, s: State)
    requires Execute(cfg, query, before) == Some(start) && WithinBound(m, before)
    requires IsCalm(start, start.level, root, count, nodes)
    requires forall k :: 0 <= k < |start.tasks| ==> IsRunning(start.tasks[k], start.level)
    ensures Execute(cfg, query, events) == Some(s) && WithinBound(m, events)
    ensures IsCalm(s, start.level, root, count, nodes + |start.tasks|) && |s.tasks| == |start.tasks|
    ensures forall k :: 0 <= k < |s.tasks| ==> IsDone(s.tasks[k], start.level)
  {
    hide Execute, Enabled, Step, WithinBound, IsRunning, IsDone, IsCalm;
    events, s := before, start;
    for k := 0 to |start.tasks|
      invariant Execute(cfg, query, events) == Some(s) && WithinBound(m, events)
      invariant IsCalm(s, start.level, root, count, nodes + k) && |s.tasks| == |start.tasks|
      invariant forall j :: 0 <= j < k ==> IsDone(s.tasks[j], start.level)
      invariant forall j :: k <= j < |s.tasks| ==> IsRunning(s.tasks[j], start.level)
    {
      FinishRunning(cfg, s, start.level, root, count, nodes + k, k);
      BoundExtend(m, events, Finish(k, Answer([], [], 0)));
      events, s := Play(cfg, query, events, s, Finish(k, Answer([], [], 0)));
    }
  }

  lemma AppendAll(
    cfg: BudgetConfig, query: string, m: nat, before: seq<Event>, start: State, root: int, count: nat, nodes: nat)
      returns (events: seq<Event>, s: State)
    requires Execute(cfg, query, before) == Some(start) && WithinBound(m, before)
    requires IsCalm(start, start.level, root, count, nodes)
    requires forall k :: 0 <= k < |start.tasks| ==> IsDone(start.tasks[k], start.level)
    ensures Execute(cfg, query, events) == Some(s) && WithinBound(m, events)
    ensures IsCalm(s, start.level, root, count + |start.tasks|, nodes) && AllRecorded(s.tasks)
  {
    hide Execute, Enabled, Step, WithinBound, IsDone, IsCalm;
    events, s := before, start;
    for k := 0 to |start.tasks|
      invariant Execute(cfg, query, events) == Some(s) && WithinBound(m, events)
      invariant IsCalm(s, start.level, root, count + k, nodes) && |s.tasks| == |start.tasks|
      invariant forall j :: 0 <= j < k ==> s.tasks[j].phase.Recorded?
      invariant forall j :: k <= j < |s.tasks| ==> IsDone(s.tasks[j], start.level)
    {
      AppendDone(cfg, s, start.level, root, count + k, nodes, k);
      BoundExtend(m, events, Append(k));
      events, s := Play(cfg, query, events, s, Append(k));
    }
  }

  /** One whole level of nodes that use nothing. */
  lemma RunLevel(
    cfg: BudgetConfig, query: string, m: nat, before: seq<Event>, start: State, root: int, nodes: nat)
      returns (events: seq<Event>, s: State)
    requires Execute(cfg, query, before) == Some(start) && WithinBound(m, before)
    requires IsCalm(start, start.level, root, 0, nodes)
    requires root <= cfg.tokenBudget && nodes < MaxNodes(cfg.breadth, cfg.depth)
    requires forall k :: 0 <= k < |start.tasks| ==> IsFresh(start.tasks[k], start.level)
    ensures Execute(cfg, query, events) == Some(s) && WithinBound(m, events) && AllRecorded(s.tasks)
    ensures IsCalm(s, start.level, root, |start.tasks|, nodes + |start.tasks|)
  {
    hide *;
    hide IsCalm;
    events, s := AdmitAll(cfg, query, m, before, start, root, 0, nodes);
    CalmLevel(s, start.level, root, 0, nodes);
    events, s := FinishAll(cfg, query, m, events, s, root, 0, nodes);
    CalmLevel(s, start.level, root, 0, nodes + |start.tasks|);
    events, s := AppendAll(cfg, query, m, events, s, root, 0, nodes + |start.tasks|);
  }

  lemma CalmLevel(s: State, level: nat, root: int, count: nat, nodes: nat)
    requires IsCalm(s, level, root, count, nodes)
    ensures s.level == level
  {
  }

  lemma {:induction false} UniformCount(nodes: seq<Node>, width: nat, level: nat, n: nat)
    requires n <= |nodes| && forall i :: 0 <= i < |nodes| ==> IsQuiet(nodes[i], level)
    ensures |Children(nodes, Uniform(|nodes|, width), level, n)| == width * LevelCount(nodes, level, n)
  {
    if n > 0 {
      UniformCount(nodes, width, level, n - 1);
      Distribute(width, LevelCount(nodes, level, n - 1));
      hide Uniform;
    }
  }

  lemma {:induction false} ChildrenFresh(
    nodes: seq<Node>, answers: seq<Option<seq<string>>>, level: nat, n: nat)
    requires n <= |nodes| == |answers|
    ensures forall c :: c in Children(nodes, answers, level, n) ==>
        c.status.Pending? && c.tokensUsed == 0 && c.depth == level + 1 && c.parentId.Some?
  {
    if n > 0 {
      ChildrenFresh(nodes, answers, level, n - 1);
    }
  }

  lemma {:induction false} QuietParents(nodes: seq<Node>, level: nat, id: Id)
    requires forall i :: 0 <= i < |nodes| ==> IsQuiet(nodes[i], level)
    ensures ParentTokens(nodes, id) == 0
  {
    if nodes != [] && nodes[0].id != id {
      QuietParents(nodes[1..], level, id);
    }
  }

  lemma {:induction false} SomeOnLevel(nodes: seq<Node>, level: nat, n: nat)
    requires n <= |nodes| && LevelCount(nodes, level, n) > 0
    ensures exists i :: 0 <= i < n && nodes[i].depth == level
  {
    if nodes[n - 1].depth != level {
      SomeOnLevel(nodes, level, n - 1);
    }
  }

  /** Every node of a full level is decomposed into `width` children. */
  lemma DecomposeCalm(cfg: BudgetConfig, s: State, width: nat, root: int, count: nat, nodes: nat)
    requires IsCalm(s, s.level, root, count, nodes) && AllRecorded(s.tasks) && count > 0 && s.level < cfg.depth
    ensures Enabled(cfg, s, Decompose(Uniform(|s.nodes|, width)))
    ensures
      var s' := Step(cfg, s, Decompose(Uniform(|s.nodes|, width)));
      && IsCalm(s', s.level + 1, root, 0, nodes) && |s'.tasks| == width * count
      && forall k :: 0 <= k < |s'.tasks| ==> IsFresh(s'.tasks[k], s.level + 1)
  {
    var answers := Uniform(|s.nodes|, width);
    QuietLevel(s.nodes, s.level, width);
    assert Step(cfg, s, Decompose(answers)) == DecomposeAll(s, answers);
    UniformDecompose(s, width);
    hide IsQuiet, InFrontier, DecomposeAll, Uniform, LevelCount, IsFresh, Enabled, Step, AllRecorded;
  }

  lemma UniformDecompose(s: State, width: nat)
    requires forall i :: 0 <= i < |s.nodes| ==> IsQuiet(s.nodes[i], s.level)
    requires LevelCount(s.nodes, s.level, |s.nodes|) > 0
    ensures
      var s' := DecomposeAll(s, Uniform(|s.nodes|, width));
      && s'.nodes == s.nodes && s'.ledger == s.ledger && s'.level == s.level + 1
      && |s'.tasks| == width * LevelCount(s.nodes, s.level, |s.nodes|)
      && forall k :: 0 <= k < |s'.tasks| ==> IsFresh(s'.tasks[k], s.level + 1)
  {
    var answers := Uniform(|s.nodes|, width);
    QuietLevel(s.nodes, s.level, width);
    hide IsQuiet, InFrontier, AfterDecompose, Uniform, Children, LevelCount, IsFresh, NewTasks;
    UniformCount(s.nodes, width, s.level, |s.nodes|);
    ChildrenFresh(s.nodes, answers, s.level, |s.nodes|);
    FreshTasks(s.nodes, Children(s.nodes, answers, s.level, |s.nodes|), s.level);
  }

  lemma QuietLevel(nodes: seq<Node>, level: nat, width: nat)
    requires forall i :: 0 <= i < |nodes| ==> IsQuiet(nodes[i], level)
    requires LevelCount(nodes, level, |nodes|) > 0
    ensures exists i :: 0 <= i < |nodes| && InFrontier(nodes[i], level)
    ensures AfterDecompose(nodes, Uniform(|nodes|, width), level) == nodes
    ensures LevelCount(nodes, level + 1, |nodes|) == 0
    ensures forall i :: 0 <= i < |nodes| ==> IsQuiet(nodes[i], level + 1)
  {
    SomeOnLevel(nodes, level, |nodes|);
    LevelCountZero(nodes, level + 1, |nodes|);
    var i :| 0 <= i < |nodes| && nodes[i].depth == level;
    assert InFrontier(nodes[i], level);
  }

  lemma FreshTasks(nodes: seq<Node>, children: seq<Node>, level: nat)
    requires forall i :: 0 <= i < |nodes| ==> IsQuiet(nodes[i], level)
    requires forall c :: c in children ==>
        c.status.Pending? && c.tokensUsed == 0 && c.depth == level + 1 && c.parentId.Some?
    ensures forall k :: 0 <= k < |children| ==> IsFresh(NewTasks(nodes, children)[k], level + 1)
  {
    forall k | 0 <= k < |children|
      ensures IsFresh(NewTasks(nodes, children)[k], level + 1)
    {
      assert children[k] in children;
      QuietParents(nodes, level, children[k].parentId.value);
    }
  }

  /** What the root leaves reserved after it has used nothing. */
  function Left(cfg: BudgetConfig): int {
    Min(cfg.rootEstimate, 0)
  }

  lemma RootRun(cfg: BudgetConfig, query: string, m: nat) returns (events: seq<Event>, s: State)
    requires cfg.breadth >= 1 && cfg.depth >= 1 && cfg.rootEstimate <= cfg.tokenBudget
    ensures Execute(cfg, query, events) == Some(s) && WithinBound(m, events) && AllRecorded(s.tasks)
    ensures IsCalm(s, 0, Left(cfg), 1, 1)
  {
    PowerPositive(cfg.breadth, 1);
    MaxNodesStrict(cfg.breadth, 0, cfg.depth);
    events, s := [], Initial(query);
    events, s := Play(cfg, query, events, s, Admit(0));
    events, s := Play(cfg, query, events, s, Finish(0, Answer([], [], 0)));
    events, s := Play(cfg, query, events, s, Append(0));
    assert LevelCount(s.nodes, 0, 0) == 0;
  }

  /** A run that decomposes every node of every level into `breadth` children, up to the given level. */
  lemma {:induction false} FullTree(cfg: BudgetConfig, query: string, m: nat, level: nat)
      returns (events: seq<Event>, s: State)
    requires cfg.breadth >= 1 && cfg.rootEstimate <= cfg.tokenBudget && level < cfg.depth && m >= cfg.breadth
    ensures Execute(cfg, query, events) == Some(s) && WithinBound(m, events) && AllRecorded(s.tasks)
    ensures IsCalm(s, level, Left(cfg), Power(cfg.breadth, level), MaxNodes(cfg.breadth, level))
  {
    hide Execute, WithinBound, AllRecorded, IsCalm, AnswersWithin, Power, MaxNodes;
    NextPower(cfg.breadth, level);
    if level == 0 {
      events, s := RootRun(cfg, query, m);
    } else {
      events, s := FullTree(cfg, query, m, level - 1);
      events, s := NextLevel(cfg, query, m, level - 1, cfg.breadth, events, s);
    }
  }

  lemma NextLevel(
    cfg: BudgetConfig, query: string, m: nat, level: nat, width: nat, before: seq<Event>, start: State)
      returns (events: seq<Event>, s: State)
    requires cfg.breadth >= 1 && cfg.rootEstimate <= cfg.tokenBudget && level < cfg.depth && width <= m
    requires Execute(cfg, query, before) == Some(start) && WithinBound(m, before) && AllRecorded(start.tasks)
    requires IsCalm(start, level, Left(cfg), Power(cfg.breadth, level), MaxNodes(cfg.breadth, level))
    ensures Execute(cfg, query, events) == Some(s) && WithinBound(m, events) && AllRecorded(s.tasks)
    ensures
      var n := width * Power(cfg.breadth, level);
      IsCalm(s, level + 1, Left(cfg), n, MaxNodes(cfg.breadth, level) + n)
  {
    hide Execute, WithinBound, AllRecorded, IsCalm, Enabled, Step, IsFresh, Power, MaxNodes;
    var count, nodes, root := Power(cfg.breadth, level), MaxNodes(cfg.breadth, level), Left(cfg);
    PowerPositive(cfg.breadth, level);
    MaxNodesStrict(cfg.breadth, level, cfg.depth);
    CalmLevel(start, level, root, count, nodes);
    var e := Decompose(Uniform(|start.nodes|, width));
    DecomposeCalm(cfg, start, width, root, count, nodes);
    BoundExtend(m, before, e);
    events, s := Play(cfg, query, before, start, e);
    CalmLevel(s, level + 1, root, 0, nodes);
    events, s := RunLevel(cfg, query, m, events, s, root, nodes);
  }

  /** One sub-query too many per node of the last decomposed level, and the cap is passed by breadth^(depth - 1). */
  lemma CapOverrun(cfg: BudgetConfig, query: string) returns (events: seq<Event>)
    requires cfg.breadth >= 1 && cfg.depth >= 1 && cfg.rootEstimate <= cfg.tokenBudget
    ensures Execute(cfg, query, events).Some? && WithinBound(cfg.breadth + 1, events)
    ensures Execute(cfg, query, events).value.ledger.nodes
         == MaxNodes(cfg.breadth, cfg.depth) + Power(cfg.breadth, cfg.depth - 1)
  {
    hide Execute, WithinBound;
    var b, level := cfg.breadth, cfg.depth - 1;
    var s;
    events, s := FullTree(cfg, query, b + 1, level);
    events, s := NextLevel(cfg, query, b + 1, level, b + 1, events, s);
    Distribute(Power(b, level), b);
  }

  /** The cap is kept in every run whose decompositions return at most m sub-queries if and only if m is at most the
      breadth, or the root cannot even be paid for. */
  lemma CapKeptIff(cfg: BudgetConfig, query: string, m: nat)
    requires cfg.breadth >= 1 && cfg.depth >= 1
    ensures (forall events :: Execute(cfg, query, events).Some? && WithinBound(m, events) ==> !Overrun(cfg, query, events))
       <==> m <= cfg.breadth || cfg.rootEstimate > cfg.tokenBudget
  {
    if m <= cfg.breadth {
      forall events | Execute(cfg, query, events).Some? && WithinBound(m, events)
        ensures !Overrun(cfg, query, events)
      {
        Loosen(m, cfg.breadth, events);
        CapKept(cfg, query, events);
      }
    } else if cfg.rootEstimate > cfg.tokenBudget {
      forall events | Execute(cfg, query, events).Some? && WithinBound(m, events)
        ensures !Overrun(cfg, query, events)
      {
        RootTooDear(cfg, query, events);
      }
    } else {
      var events := CapOverrun(cfg, query);
      Loosen(cfg.breadth + 1, m, events);
      PowerPositive(cfg.breadth, cfg.depth - 1);
      assert Overrun(cfg, query, events);
    }
  }

  lemma Loosen(m: nat, n: nat, events: seq<Event>)
    requires m <= n && WithinBound(m, events)
    ensures WithinBound(n, events)
  {
  }

  // ---------- the cap in closed form ----------

  lemma {:induction false} PowerLaw(b: nat, i: nat, j: nat)
    ensures Power(b, 0) == 1 && Power(b, 1) == b
    ensures Power(b, i + j) == Power(b, i) * Power(b, j)
  {
    assert Power(b, 1) == Power(b, 0) * b;
    if j > 0 {
      PowerLaw(b, i, j - 1);
      assert Power(b, i + j) == Power(b, i + (j - 1)) * b;
    }
  }

  /** The cap is the geometric sum: depth + 1 for breadth 1, and (b^(depth + 1) - 1) / (b - 1) otherwise. */
  lemma {:induction false} CapIsGeometric(b: nat, depth: nat)
    ensures b == 1 ==> MaxNodes(b, depth) == depth + 1
    ensures (b - 1) * MaxNodes(b, depth) == Power(b, depth + 1) - 1
  {
    assert Power(b, depth + 1) == Power(b, depth) * b;
    if depth > 0 {
      CapIsGeometric(b, depth - 1);
      GeometricStep(b, MaxNodes(b, depth - 1), Power(b, depth));
      OnesOnly(depth);
    } else {
      assert Power(b, 0) == 1;
    }
  }

  lemma {:induction false} OnesOnly(e: nat)
    ensures Power(1, e) == 1
  {
    if e > 0 {
      OnesOnly(e - 1);
    }
  }

  lemma GeometricStep(b: nat, sum: nat, power: nat)
    requires (b - 1) * sum == power - 1
    ensures (b - 1) * (sum + power) == power * b - 1
  {
    assert (b - 1) * (sum + power) == (b - 1) * sum + (b - 1) * power;
  }
}
