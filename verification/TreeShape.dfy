/** The tree that a run builds: every recorded node hangs below a complete parent one level up, and the structural
    cap of the ledger. */
module TreeShape {
  import opened Prelude
  import opened Budget
  import opened Tree
  import opened TreeLedger

  function ParentOf(id: Id): Id
    requires id != []
  {
    id[..|id| - 1]
  }

  predicate IsPlaced(n: Node) {
    && |n.id| == n.depth
    && (if n.depth == 0 then n.parentId == None && n.breadthIndex == 0
        else n.parentId == Some(ParentOf(n.id)) && n.breadthIndex == n.id[n.depth - 1])
  }

  /** Some recorded node is the complete parent of `n`, one level up. */
  ghost predicate HasParent(nodes: seq<Node>, n: Node) {
    n.depth == 0 || exists j :: 0 <= j < |nodes| && IsParent(nodes[j], n)
  }

  predicate IsParent(p: Node, n: Node) {
    p.status.Complete? && p.depth + 1 == n.depth && n.parentId == Some(p.id)
  }

  predicate DistinctIds(nodes: seq<Node>) {
    forall i, j :: 0 <= i < j < |nodes| ==> nodes[i].id != nodes[j].id
  }

  function TaskNodes(tasks: seq<Task>): (r: seq<Node>)
    ensures |r| == |tasks|
    ensures forall k :: 0 <= k < |tasks| ==> r[k] == tasks[k].node
  {
    seq(|tasks|, k requires 0 <= k < |tasks| => tasks[k].node)
  }

  ghost predicate NodesPlaced(nodes: seq<Node>, level: nat) {
    forall i :: 0 <= i < |nodes| ==> IsPlaced(nodes[i]) && nodes[i].depth <= level && HasParent(nodes, nodes[i])
  }

  ghost predicate TasksPlaced(nodes: seq<Node>, tasks: seq<Task>, level: nat) {
    forall k :: 0 <= k < |tasks| ==>
      && IsPlaced(tasks[k].node) && tasks[k].node.depth == level
      && HasParent(nodes, tasks[k].node) && KnowsParentTokens(nodes, tasks[k])
  }

  /** Ids are unique, also between recorded nodes and those still to be appended. */
  predicate IdsUnique(nodes: seq<Node>, tasks: seq<Task>) {
    && DistinctIds(nodes)
    && DistinctIds(TaskNodes(tasks))
    && (forall k, i :: 0 <= k < |tasks| && 0 <= i < |nodes| && !tasks[k].phase.Recorded? ==>
          tasks[k].node.id != nodes[i].id)
  }

  ghost predicate HasShape(cfg: BudgetConfig, s: State) {
    && s.level <= cfg.depth
    && NodesPlaced(s.nodes, s.level)
    && TasksPlaced(s.nodes, s.tasks, s.level)
    && IdsUnique(s.nodes, s.tasks)
  }

  /** The usage a task was started with is still what its parent records. */
  predicate KnowsParentTokens(nodes: seq<Node>, t: Task) {
    t.parentTokens == if t.node.parentId.Some? then ParentTokens(nodes, t.node.parentId.value) else 0
  }

  lemma {:induction false} ParentTokensAppend(nodes: seq<Node>, x: Node, id: Id)
    requires exists j :: 0 <= j < |nodes| && nodes[j].id == id
    ensures ParentTokens(nodes + [x], id) == ParentTokens(nodes, id)
  {
    assert (nodes + [x])[1..] == nodes[1..] + [x];
    if nodes[0].id != id {
      var j :| 0 <= j < |nodes| && nodes[j].id == id;
      assert nodes[1..][j - 1].id == id;
      ParentTokensAppend(nodes[1..], x, id);
    }
  }

  lemma {:induction false} ParentTokensOf(nodes: seq<Node>, j: nat)
    requires DistinctIds(nodes) && j < |nodes|
    ensures ParentTokens(nodes, nodes[j].id) == nodes[j].tokensUsed
  {
    if j > 0 {
      ParentTokensOf(nodes[1..], j - 1);
    }
  }

  // ---------- children ----------

  lemma {:induction false} ChildrenOrigin(
    nodes: seq<Node>, answers: seq<Option<seq<string>>>, level: nat, n: nat, c: nat)
    requires n <= |nodes| == |answers| && c < |Children(nodes, answers, level, n)|
    ensures exists i, q :: (0 <= i < n && InFrontier(nodes[i], level) && answers[i].Some?
        && 0 <= q < |answers[i].value| && Children(nodes, answers, level, n)[c] == ChildrenOf(nodes[i], answers[i].value)[q])
  {
    var before := Children(nodes, answers, level, n - 1);
    if c < |before| {
      ChildrenOrigin(nodes, answers, level, n - 1, c);
    } else {
      assert Children(nodes, answers, level, n)[c] == ChildrenOf(nodes[n - 1], answers[n - 1].value)[c - |before|];
    }
  }

  lemma DistinctPaths(a: Id, i: nat, b: Id, j: nat)
    requires a != b
    ensures a + [i] != b + [j]
  {
    assert a == (a + [i])[..|a|] && b == (b + [j])[..|b|];
  }

  lemma SiblingsDistinct(parent: Node, queries: seq<string>)
    ensures DistinctIds(ChildrenOf(parent, queries))
  {
    forall i, j | 0 <= i < j < |queries|
      ensures parent.id + [i] != parent.id + [j]
    {
      assert (parent.id + [i])[|parent.id|] == i;
    }
  }

  lemma DistinctConcat(a: seq<Node>, b: seq<Node>)
    requires DistinctIds(a) && DistinctIds(b)
    requires forall c, d :: 0 <= c < |a| && 0 <= d < |b| ==> a[c].id != b[d].id
    ensures DistinctIds(a + b)
  {
  }

  /** Children of different parents have different ids. */
  lemma CousinsDistinct(
    nodes: seq<Node>, answers: seq<Option<seq<string>>>, level: nat, n: nat, c: nat, queries: seq<string>, d: nat)
    requires n < |nodes| == |answers| && DistinctIds(nodes)
    requires c < |Children(nodes, answers, level, n)| && d < |queries|
    ensures Children(nodes, answers, level, n)[c].id != ChildrenOf(nodes[n], queries)[d].id
  {
    ChildrenOrigin(nodes, answers, level, n, c);
    var i, q :| 0 <= i < n && InFrontier(nodes[i], level) && answers[i].Some?
      && 0 <= q < |answers[i].value|
      && Children(nodes, answers, level, n)[c] == ChildrenOf(nodes[i], answers[i].value)[q];
    hide Children;
    DistinctPaths(nodes[i].id, q, nodes[n].id, d);
  }

  lemma {:induction false} ChildrenDistinct(nodes: seq<Node>, answers: seq<Option<seq<string>>>, level: nat, n: nat)
    requires n <= |nodes| == |answers| && DistinctIds(nodes)
    ensures DistinctIds(Children(nodes, answers, level, n))
  {
    if n > 0 {
      ChildrenDistinct(nodes, answers, level, n - 1);
      if InFrontier(nodes[n - 1], level) && answers[n - 1].Some? {
        var before, own := Children(nodes, answers, level, n - 1), ChildrenOf(nodes[n - 1], answers[n - 1].value);
        SiblingsDistinct(nodes[n - 1], answers[n - 1].value);
        forall c, d | 0 <= c < |before| && 0 <= d < |own|
          ensures before[c].id != own[d].id
        {
          CousinsDistinct(nodes, answers, level, n - 1, c, answers[n - 1].value, d);
        }
        DistinctConcat(before, own);
        hide DistinctIds, ChildrenOf;
      } else {
        assert Children(nodes, answers, level, n) == Children(nodes, answers, level, n - 1);
      }
    }
  }

  lemma ChildShape(s: State, answers: seq<Option<seq<string>>>, c: nat)
    requires |answers| == |s.nodes| && c < |Children(s.nodes, answers, s.level, |s.nodes|)|
    requires NodesPlaced(s.nodes, s.level)
    ensures
      var child := Children(s.nodes, answers, s.level, |s.nodes|)[c];
      && IsPlaced(child) && child.depth == s.level + 1 && |child.id| == s.level + 1
      && HasParent(AfterDecompose(s.nodes, answers, s.level), child)
  {
    var nodes' := AfterDecompose(s.nodes, answers, s.level);
    var child := Children(s.nodes, answers, s.level, |s.nodes|)[c];
    ChildrenOrigin(s.nodes, answers, s.level, |s.nodes|, c);
    var i, q :| 0 <= i < |s.nodes| && InFrontier(s.nodes[i], s.level) && answers[i].Some?
      && 0 <= q < |answers[i].value| && child == ChildrenOf(s.nodes[i], answers[i].value)[q];
    assert child.id[..|child.id| - 1] == s.nodes[i].id;
    assert IsParent(nodes'[i], child);
  }

  // ---------- the shape is kept ----------

  lemma ParentKept(nodes: seq<Node>, x: Node, n: Node)
    requires HasParent(nodes, n)
    ensures HasParent(nodes + [x], n)
  {
    if n.depth > 0 {
      var j :| 0 <= j < |nodes| && IsParent(nodes[j], n);
      assert (nodes + [x])[j] == nodes[j];
    }
  }

  lemma AppendKnows(nodes: seq<Node>, x: Node, t: Task)
    requires IsPlaced(t.node) && HasParent(nodes, t.node) && KnowsParentTokens(nodes, t)
    ensures KnowsParentTokens(nodes + [x], t)
  {
    if t.node.depth > 0 {
      var j :| 0 <= j < |nodes| && IsParent(nodes[j], t.node);
      ParentTokensAppend(nodes, x, t.node.parentId.value);
    }
  }

  lemma AppendShape(cfg: BudgetConfig, s: State, k: nat)
    requires HasShape(cfg, s) && Enabled(cfg, s, Append(k))
    ensures HasShape(cfg, AppendTask(s, k))
  {
    hide IsPlaced, HasParent, KnowsParentTokens;
    var s', x := AppendTask(s, k), s.tasks[k].node;
    forall i | 0 <= i < |s'.nodes|
      ensures IsPlaced(s'.nodes[i]) && s'.nodes[i].depth <= s.level && HasParent(s'.nodes, s'.nodes[i])
    {
      ParentKept(s.nodes, x, s'.nodes[i]);
    }
    forall m | 0 <= m < |s.tasks|
      ensures IsPlaced(s'.tasks[m].node) && s'.tasks[m].node.depth == s.level
      ensures HasParent(s'.nodes, s'.tasks[m].node) && KnowsParentTokens(s'.nodes, s'.tasks[m])
    {
      ParentKept(s.nodes, x, s.tasks[m].node);
      AppendKnows(s.nodes, x, s.tasks[m]);
      SameKnowledge(s'.nodes, s.tasks[m], s'.tasks[m]);
    }
    AppendUnique(s, k);
  }

  lemma SameKnowledge(nodes: seq<Node>, t: Task, t': Task)
    requires t.node.parentId == t'.node.parentId && t.parentTokens == t'.parentTokens
    ensures KnowsParentTokens(nodes, t) <==> KnowsParentTokens(nodes, t')
  {
  }

  lemma AppendUnique(s: State, k: nat)
    requires IdsUnique(s.nodes, s.tasks) && k < |s.tasks| && !s.tasks[k].phase.Recorded?
    ensures IdsUnique(AppendTask(s, k).nodes, AppendTask(s, k).tasks)
  {
    var s' := AppendTask(s, k);
    assert TaskNodes(s'.tasks) == TaskNodes(s.tasks);
    TaskIdsDistinct(s.tasks, k);
  }

  lemma TaskIdsDistinct(tasks: seq<Task>, k: nat)
    requires DistinctIds(TaskNodes(tasks)) && k < |tasks|
    ensures forall m :: 0 <= m < |tasks| && m != k ==> tasks[m].node.id != tasks[k].node.id
  {
    forall m | 0 <= m < |tasks| && m != k
      ensures tasks[m].node.id != tasks[k].node.id
    {
      assert TaskNodes(tasks)[m].id != TaskNodes(tasks)[k].id;
    }
  }

  lemma DecomposeKeepsPlaces(s: State, answers: seq<Option<seq<string>>>, i: nat)
    requires NodesPlaced(s.nodes, s.level) && |answers| == |s.nodes| && i < |s.nodes|
    ensures
      var nodes' := AfterDecompose(s.nodes, answers, s.level);
      IsPlaced(nodes'[i]) && nodes'[i].depth <= s.level && HasParent(nodes', nodes'[i])
  {
    var nodes' := AfterDecompose(s.nodes, answers, s.level);
    assert IsPlaced(s.nodes[i]) && HasParent(s.nodes, s.nodes[i]);
    if s.nodes[i].depth > 0 {
      var j :| 0 <= j < |s.nodes| && IsParent(s.nodes[j], s.nodes[i]);
      assert nodes'[j] == s.nodes[j];
      assert IsParent(nodes'[j], nodes'[i]);
    }
  }

  /** Children are deeper than everything recorded, so their ids are new. */
  lemma DecomposeUnique(nodes: seq<Node>, children: seq<Node>, tasks: seq<Task>, level: nat)
    requires DistinctIds(nodes) && DistinctIds(children)
    requires TaskNodes(tasks) == children
    requires forall i :: 0 <= i < |nodes| ==> |nodes[i].id| <= level
    requires forall c :: 0 <= c < |children| ==> |children[c].id| == level + 1
    ensures IdsUnique(nodes, tasks)
  {
    forall k, i | 0 <= k < |tasks| && 0 <= i < |nodes|
      ensures tasks[k].node.id != nodes[i].id
    {
      assert |children[k].id| == level + 1;
    }
  }

  lemma ChildKnows(nodes: seq<Node>, children: seq<Node>, c: nat)
    requires c < |children|
    ensures NewTasks(nodes, children)[c].node == children[c]
    ensures KnowsParentTokens(nodes, NewTasks(nodes, children)[c])
  {
  }

  lemma DecomposeNodes(s: State, answers: seq<Option<seq<string>>>)
    requires NodesPlaced(s.nodes, s.level) && DistinctIds(s.nodes) && |answers| == |s.nodes|
    ensures
      var nodes' := AfterDecompose(s.nodes, answers, s.level);
      && NodesPlaced(nodes', s.level + 1) && DistinctIds(nodes')
      && (forall i :: 0 <= i < |nodes'| ==> |nodes'[i].id| <= s.level)
  {
    AfterKeepsIds(s.nodes, answers, s.level);
    forall i | 0 <= i < |s.nodes| {
      DecomposeKeepsPlaces(s, answers, i);
    }
  }

  lemma DecomposeTasks(s: State, answers: seq<Option<seq<string>>>)
    requires NodesPlaced(s.nodes, s.level) && DistinctIds(s.nodes) && |answers| == |s.nodes|
    ensures
      var s' := DecomposeAll(s, answers);
      var children := Children(s.nodes, answers, s.level, |s.nodes|);
      && TasksPlaced(s'.nodes, s'.tasks, s.level + 1)
      && TaskNodes(s'.tasks) == children && DistinctIds(children)
      && (forall c :: 0 <= c < |children| ==> |children[c].id| == s.level + 1)
  {
    var s' := DecomposeAll(s, answers);
    var children := Children(s.nodes, answers, s.level, |s.nodes|);
    ChildrenDistinct(s.nodes, answers, s.level, |s.nodes|);
    hide IsPlaced, NodesPlaced, HasParent, KnowsParentTokens, Children, AfterDecompose, NewTasks;
    forall c | 0 <= c < |children|
      ensures IsPlaced(s'.tasks[c].node) && s'.tasks[c].node.depth == s.level + 1
      ensures HasParent(s'.nodes, s'.tasks[c].node) && KnowsParentTokens(s'.nodes, s'.tasks[c])
      ensures s'.tasks[c].node == children[c] && |children[c].id| == s.level + 1
    {
      ChildShape(s, answers, c);
      ChildKnows(s'.nodes, children, c);
    }
  }

  lemma DecomposeShape(cfg: BudgetConfig, s: State, answers: seq<Option<seq<string>>>)
    requires HasShape(cfg, s) && Enabled(cfg, s, Decompose(answers))
    ensures HasShape(cfg, DecomposeAll(s, answers))
  {
    hide NodesPlaced, TasksPlaced;
    var s' := DecomposeAll(s, answers);
    DecomposeNodes(s, answers);
    DecomposeTasks(s, answers);
    DecomposeUnique(s'.nodes, Children(s.nodes, answers, s.level, |s.nodes|), s'.tasks, s.level);
  }

  lemma AfterKeepsIds(nodes: seq<Node>, answers: seq<Option<seq<string>>>, level: nat)
    requires |answers| == |nodes| && DistinctIds(nodes)
    ensures DistinctIds(AfterDecompose(nodes, answers, level))
  {
  }

  lemma TaskUnique(s: State, tasks': seq<Task>, k: nat)
    requires IdsUnique(s.nodes, s.tasks) && k < |s.tasks| == |tasks'|
    requires tasks' == s.tasks[k := tasks'[k]]
    requires !s.tasks[k].phase.Recorded? && tasks'[k].node.id == s.tasks[k].node.id
    ensures IdsUnique(s.nodes, tasks')
  {
    forall i, j | 0 <= i < j < |tasks'|
      ensures TaskNodes(tasks')[i].id != TaskNodes(tasks')[j].id
    {
      assert TaskNodes(s.tasks)[i].id != TaskNodes(s.tasks)[j].id;
    }
  }

  lemma TaskShape(cfg: BudgetConfig, s: State, s': State, k: nat)
    requires HasShape(cfg, s) && k < |s.tasks| == |s'.tasks|
    requires s'.nodes == s.nodes && s'.level == s.level && s'.tasks == s.tasks[k := s'.tasks[k]]
    requires !s.tasks[k].phase.Recorded? && s'.tasks[k].parentTokens == s.tasks[k].parentTokens
    requires s'.tasks[k].node.id == s.tasks[k].node.id && s'.tasks[k].node.depth == s.tasks[k].node.depth
    requires s'.tasks[k].node.parentId == s.tasks[k].node.parentId
    requires s'.tasks[k].node.breadthIndex == s.tasks[k].node.breadthIndex
    ensures HasShape(cfg, s')
  {
    TaskUnique(s, s'.tasks, k);
    SamePlace(s.nodes, s.tasks[k], s'.tasks[k]);
    hide IdsUnique, IsPlaced, HasParent, KnowsParentTokens, NodesPlaced;
  }

  lemma SamePlace(nodes: seq<Node>, t: Task, t': Task)
    requires t'.node.id == t.node.id && t'.node.depth == t.node.depth && t'.node.parentId == t.node.parentId
    requires t'.node.breadthIndex == t.node.breadthIndex && t'.parentTokens == t.parentTokens
    ensures IsPlaced(t.node) ==> IsPlaced(t'.node)
    ensures HasParent(nodes, t.node) ==> HasParent(nodes, t'.node)
    ensures KnowsParentTokens(nodes, t) ==> KnowsParentTokens(nodes, t')
  {
    if HasParent(nodes, t.node) && t.node.depth > 0 {
      var j :| 0 <= j < |nodes| && IsParent(nodes[j], t.node);
      assert IsParent(nodes[j], t'.node);
    }
  }

  lemma ShapeStep(cfg: BudgetConfig, s: State, e: Event)
    requires HasShape(cfg, s) && Enabled(cfg, s, e)
    ensures HasShape(cfg, Step(cfg, s, e))
  {
    match e
    case Admit(k) => TaskShape(cfg, s, Step(cfg, s, e), k);
    case Finish(k, outcome) => TaskShape(cfg, s, Step(cfg, s, e), k);
    case Append(k) => AppendShape(cfg, s, k);
    case Decompose(answers) => DecomposeShape(cfg, s, answers);
  }

  /** In every reachable state, whatever the interleaving and whatever fails: recorded ids are distinct, no node is
      deeper than the configured depth, and every node below the root has its complete parent recorded one level up. */
  lemma {:induction false} ShapeInEveryRun(cfg: BudgetConfig, query: string, events: seq<Event>)
    requires Execute(cfg, query, events).Some?
    ensures HasShape(cfg, Execute(cfg, query, events).value)
  {
    if events != [] {
      var n := |events| - 1;
      ShapeInEveryRun(cfg, query, events[..n]);
      ShapeStep(cfg, Execute(cfg, query, events[..n]).value, events[n]);
    }
  }

  lemma ReservationOfTask(cfg: BudgetConfig, nodes: seq<Node>, t: Task, j: nat)
    requires DistinctIds(nodes) && j < |nodes| && IsParent(nodes[j], t.node)
    requires KnowsParentTokens(nodes, t) && IsSoundTask(cfg, t) && t.phase.Fanning?
    ensures t.node.reservedTokens == nodes[j].tokensUsed * cfg.breadth * 5 / 4
  {
    ParentTokensOf(nodes, j);
  }

  /** A node's reservation is its parent's actual usage * breadth * 1.25, rounded down, although the ledger is
      charged before the node writes its own copy of the amount. */
  lemma ReservationFromParent(cfg: BudgetConfig, query: string, events: seq<Event>, k: nat, j: nat)
    requires Execute(cfg, query, events).Some?
    requires
      var s := Execute(cfg, query, events).value;
      k < |s.tasks| && j < |s.nodes| && s.tasks[k].phase.Fanning? && IsParent(s.nodes[j], s.tasks[k].node)
    ensures
      var s := Execute(cfg, query, events).value;
      s.tasks[k].node.reservedTokens == s.nodes[j].tokensUsed * cfg.breadth * 5 / 4
  {
    ShapeInEveryRun(cfg, query, events);
    LedgerInEveryRun(cfg, query, events);
    var s := Execute(cfg, query, events).value;
    hide *;
    FanningSound(cfg, s, k);
    ReservationOfTask(cfg, s.nodes, s.tasks[k], j);
  }

  /** The root's reservation is the configured estimate. */
  lemma ReservationOfRoot(cfg: BudgetConfig, query: string, events: seq<Event>, k: nat)
    requires Execute(cfg, query, events).Some?
    requires
      var s := Execute(cfg, query, events).value;
      k < |s.tasks| && s.tasks[k].phase.Fanning? && s.tasks[k].node.id == []
    ensures Execute(cfg, query, events).value.tasks[k].node.reservedTokens == cfg.rootEstimate
  {
    ShapeInEveryRun(cfg, query, events);
    LedgerInEveryRun(cfg, query, events);
    var s := Execute(cfg, query, events).value;
    hide Execute;
    assert IsSoundTask(cfg, s.tasks[k]) && IsPlaced(s.tasks[k].node);
  }

  lemma FanningSound(cfg: BudgetConfig, s: State, k: nat)
    requires HasShape(cfg, s) && IsSound(cfg, s) && k < |s.tasks|
    ensures DistinctIds(s.nodes) && KnowsParentTokens(s.nodes, s.tasks[k]) && IsSoundTask(cfg, s.tasks[k])
  {
  }

  // ---------- truncation ----------

  /** truncateFrontier: marks every node that is still pending or expanding. */
  function Truncated(nodes: seq<Node>): seq<Node> {
    seq(|nodes|, i requires 0 <= i < |nodes| =>
      if nodes[i].status.Pending? || nodes[i].status.Expanding? then nodes[i].(status := BudgetExceeded) else nodes[i])
  }

  /** The memory guard never truncates anything: recorded nodes are always terminal. */
  lemma TruncationIsIdle(cfg: BudgetConfig, query: string, events: seq<Event>)
    requires Execute(cfg, query, events).Some?
    ensures Truncated(Execute(cfg, query, events).value.nodes) == Execute(cfg, query, events).value.nodes
  {
    LedgerInEveryRun(cfg, query, events);
    var s := Execute(cfg, query, events).value;
    forall i | 0 <= i < |s.nodes|
      ensures Truncated(s.nodes)[i] == s.nodes[i]
    {
      assert IsSoundNode(cfg, s.nodes[i]);
    }
  }

  // ---------- lineage ----------

  /** Maps as buildTreeResult makes them: every node under its id, every parent present. */
  predicate IsFamily(nodeMap: map<Id, Node>) {
    forall id {:trigger nodeMap[id]} :: id in nodeMap ==>
      IsPlaced(nodeMap[id]) && nodeMap[id].id == id && (id != [] ==> ParentOf(id) in nodeMap)
  }

  /** The ids from the root down to `id`. */
  function Chain(id: Id): (path: seq<Id>)
    ensures |path| == |id| + 1
  {
    if id == [] then [[]] else Chain(ParentOf(id)) + [id]
  }

  /** The k-th id of a lineage is the path's first k indexes: the ancestor at depth k. */
  lemma {:induction false} ChainAt(id: Id, k: nat)
    requires k <= |id|
    ensures Chain(id)[k] == id[..k]
  {
    if k < |id| {
      ChainAt(ParentOf(id), k);
      assert ParentOf(id)[..k] == id[..k];
    }
  }

  lemma FamilyStep(nodeMap: map<Id, Node>, c: Node)
    requires IsFamily(nodeMap) && c.id in nodeMap && nodeMap[c.id] == c
    ensures c.parentId == None ==> Chain(c.id) == [c.id]
    ensures c.parentId != None ==>
        && c.parentId.value in nodeMap && nodeMap[c.parentId.value].id == c.parentId.value
        && nodeMap[c.parentId.value].depth < c.depth
        && Chain(c.id) == Chain(c.parentId.value) + [c.id]
  {
    assert IsPlaced(nodeMap[c.id]);
    if c.parentId != None {
      assert IsPlaced(nodeMap[ParentOf(c.id)]);
    }
  }

  /** Walks the parent links up to the root; terminates, and meets exactly the chain of ancestors. */
  method FlattenWithLineage(node: Node, nodeMap: map<Id, Node>) returns (path: seq<Id>)
    requires IsFamily(nodeMap) && node.id in nodeMap && nodeMap[node.id] == node
    ensures path == Chain(node.id)
  {
    hide IsFamily, Chain, IsPlaced;
    path := [];
    var current := Some(node);
    while current.Some?
      invariant current.Some? ==> current.value.id in nodeMap && nodeMap[current.value.id] == current.value
      invariant if current.Some? then Chain(node.id) == Chain(current.value.id) + path else path == Chain(node.id)
      decreases if current.Some? then current.value.depth else 0, current.Some?
    {
      var c := current.value;
      FamilyStep(nodeMap, c);
      path := [c.id] + path;
      if c.parentId.None? {
        break;
      }
      current := if c.parentId.value in nodeMap then Some(nodeMap[c.parentId.value]) else None;
    }
  }

  /** buildTreeResult's node map: later nodes would overwrite earlier ones with the same id. */
  function NodeMap(nodes: seq<Node>): map<Id, Node> {
    if nodes == [] then map[] else NodeMap(nodes[..|nodes| - 1])[nodes[|nodes| - 1].id := nodes[|nodes| - 1]]
  }

  lemma {:induction false} NodeMapMeaning(nodes: seq<Node>)
    requires DistinctIds(nodes)
    ensures forall id :: id in NodeMap(nodes) <==> exists i :: 0 <= i < |nodes| && nodes[i].id == id
    ensures forall i :: 0 <= i < |nodes| ==> nodes[i].id in NodeMap(nodes) && NodeMap(nodes)[nodes[i].id] == nodes[i]
  {
    if nodes != [] {
      var n := |nodes| - 1;
      NodeMapMeaning(nodes[..n]);
      forall id
        ensures id in NodeMap(nodes) <==> exists i :: 0 <= i < |nodes| && nodes[i].id == id
      {
        if i :| 0 <= i < n && nodes[i].id == id {
          assert nodes[..n][i].id == id;
        }
      }
      forall i | 0 <= i < |nodes|
        ensures nodes[i].id in NodeMap(nodes) && NodeMap(nodes)[nodes[i].id] == nodes[i]
      {
        if i < n {
          assert nodes[..n][i] == nodes[i];
        }
      }
    }
  }

  /** In every reachable state the lineage of every recorded node is a chain of recorded nodes from the root, each
      the parent of the next and complete, of length depth + 1. */
  lemma LineageInEveryRun(cfg: BudgetConfig, query: string, events: seq<Event>, i: nat)
    requires Execute(cfg, query, events).Some? && i < |Execute(cfg, query, events).value.nodes|
    ensures
      var nodes := Execute(cfg, query, events).value.nodes;
      var path := Chain(nodes[i].id);
      && IsFamily(NodeMap(nodes))
      && nodes[i].id in NodeMap(nodes) && NodeMap(nodes)[nodes[i].id] == nodes[i]
      && |path| == nodes[i].depth + 1 && path[nodes[i].depth] == nodes[i].id
      && (forall k :: 0 <= k < |path| ==> path[k] in NodeMap(nodes))
      && (forall k {:trigger path[k]} :: 0 < k < |path| ==> IsParent(NodeMap(nodes)[path[k - 1]], NodeMap(nodes)[path[k]]))
  {
    var s := Execute(cfg, query, events).value;
    ShapeInEveryRun(cfg, query, events);
    NodeMapMeaning(s.nodes);
    var family := NodeMap(s.nodes);
    forall id | id in family
      ensures IsPlaced(family[id]) && family[id].id == id
      ensures IsLinked(family, id)
    {
      var m :| 0 <= m < |s.nodes| && s.nodes[m].id == id;
      assert IsPlaced(s.nodes[m]) && HasParent(s.nodes, s.nodes[m]);
      if id != [] {
        var j :| 0 <= j < |s.nodes| && IsParent(s.nodes[j], s.nodes[m]);
      }
    }
    AncestorsRecorded(family, s.nodes[i].id);
  }

  predicate IsLinked(family: map<Id, Node>, id: Id) {
    id in family && (id != [] ==> ParentOf(id) in family && IsParent(family[ParentOf(id)], family[id]))
  }

  lemma {:induction false} AncestorsRecorded(family: map<Id, Node>, id: Id)
    requires IsFamily(family) && id in family
    requires forall a {:trigger IsLinked(family, a)} :: a in family ==> IsLinked(family, a)
    ensures forall k :: 0 <= k < |Chain(id)| ==> Chain(id)[k] in family
    ensures forall k {:trigger Chain(id)[k]} :: 0 < k < |Chain(id)| ==> IsParent(family[Chain(id)[k - 1]], family[Chain(id)[k]])
    decreases |id|
  {
    hide IsPlaced, IsParent;
    assert IsLinked(family, id);
    if id != [] {
      var parent := ParentOf(id);
      AncestorsRecorded(family, parent);
      assert Chain(id) == Chain(parent) + [id];
      assert Chain(parent)[|parent|] == parent;
    }
  }
}
