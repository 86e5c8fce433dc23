/** What becomes of every node of a tree, read off the events of the run: the outcome of its own Fanout, the failure of
    its decomposition, and the sub-query it was created for. */
module TreeOutcomes {
  import opened Prelude
  import opened Budget
  import opened Tree
  import opened TreeShape

  predicate Finishes(s: State, e: Event, id: Id) {
    e.Finish? && e.k < |s.tasks| && s.tasks[e.k].node.id == id
  }

  /** The outcome of the node's Fanout, once there is one. */
  function FanoutOf(cfg: BudgetConfig, query: string, events: seq<Event>, id: Id): Option<Outcome> {
    if events == [] then None
    else
      var before, e := events[..|events| - 1], events[|events| - 1];
      match Execute(cfg, query, before)
      case None => None
      case Some(s) => if Finishes(s, e, id) then Some(e.outcome) else FanoutOf(cfg, query, before, id)
  }

  /** The complete node at position i of the current level gets no answer to its decomposition. */
  predicate GivesUpAt(s: State, e: Event, id: Id, i: nat) {
    && e.Decompose? && i < |s.nodes| == |e.answers| && s.nodes[i].id == id
    && s.nodes[i].depth == s.level && s.nodes[i].status.Complete? && e.answers[i] == None
  }

  ghost predicate GivesUp(s: State, e: Event, id: Id) {
    exists i :: GivesUpAt(s, e, id, i)
  }

  /** The node's decomposition has failed. */
  ghost predicate GivenUp(cfg: BudgetConfig, query: string, events: seq<Event>, id: Id) {
    events != []
    && var before, e := events[..|events| - 1], events[|events| - 1];
       match Execute(cfg, query, before)
       case None => false
       case Some(s) => GivesUp(s, e, id) || GivenUp(cfg, query, before, id)
  }

  /** What a finished node holds: the answer of its own Fanout and nothing else. A node without one was not admitted. */
  predicate HoldsOutcome(cfg: BudgetConfig, n: Node, outcome: Option<Outcome>, givenUp: bool) {
    match outcome
    case None =>
      && n.status == BudgetExceeded && n.tokensUsed == n.reservedTokens == 0 && n.costUsd == 0.0
      && n.citations == [] && n.claims == []
    case Some(Error) =>
      && n.status == Failed && n.tokensUsed == 0 && n.costUsd == 0.0 && n.citations == [] && n.claims == []
    case Some(Answer(citations, claims, tokens)) =>
      && n.status == (if givenUp then Failed else Complete)
      && n.citations == citations && n.claims == claims
      && n.tokensUsed == tokens && n.costUsd == tokens as real * cfg.price
  }

  predicate IsBlank(n: Node) {
    n.tokensUsed == 0 && n.costUsd == 0.0 && n.citations == [] && n.claims == []
  }

  predicate TaskHolds(cfg: BudgetConfig, t: Task, outcome: Option<Outcome>, givenUp: bool) {
    match t.phase
    case Waiting => t.node.status == Pending && IsBlank(t.node) && t.node.reservedTokens == 0 && outcome == None
    case Fanning => t.node.status == Expanding && IsBlank(t.node) && outcome == None
    case Settled => HoldsOutcome(cfg, t.node, outcome, givenUp)
    case Recorded => true
  }

  /** What holds between a state and the outcomes so far. */
  ghost predicate Holds(cfg: BudgetConfig, outcome: Id -> Option<Outcome>, givenUp: Id -> bool, s: State) {
    && (forall i :: 0 <= i < |s.nodes| ==>
          HoldsOutcome(cfg, s.nodes[i], outcome(s.nodes[i].id), givenUp(s.nodes[i].id)))
    && (forall k :: 0 <= k < |s.tasks| ==> TaskHolds(cfg, s.tasks[k], outcome(s.tasks[k].node.id), false))
    && (forall id {:trigger outcome(id)} :: |id| > s.level ==> outcome(id) == None)
    && (forall id {:trigger givenUp(id)} :: |id| >= s.level ==> !givenUp(id))
    && (s.level > 0 ==> outcome([]).Some? && outcome([]).value.Answer?)
  }

  ghost predicate OutcomesHold(cfg: BudgetConfig, query: string, events: seq<Event>, s: State) {
    Holds(cfg, id => FanoutOf(cfg, query, events, id), id => GivenUp(cfg, query, events, id), s)
  }

  /** What a step adds to the outcomes. */
  ghost predicate Extends(
    s: State, e: Event, outcome: Id -> Option<Outcome>, givenUp: Id -> bool,
    outcome': Id -> Option<Outcome>, givenUp': Id -> bool)
  {
    && (forall id {:trigger outcome'(id)} :: outcome'(id) == if Finishes(s, e, id) then Some(e.outcome) else outcome(id))
    && (forall id {:trigger givenUp'(id)} :: givenUp'(id) <==> GivesUp(s, e, id) || givenUp(id))
  }

  lemma NextOutcomes(cfg: BudgetConfig, query: string, events: seq<Event>, e: Event, s: State)
    requires Execute(cfg, query, events) == Some(s)
    ensures
      Extends(s, e, id => FanoutOf(cfg, query, events, id), id => GivenUp(cfg, query, events, id),
        id => FanoutOf(cfg, query, events + [e], id), id => GivenUp(cfg, query, events + [e], id))
  {
    assert (events + [e])[..|events|] == events;
  }

  /** PreCheck lets a waiting node into Fanout, or settles it as exceeded. */
  lemma AdmitOutcomes(
    cfg: BudgetConfig, s: State, k: nat, outcome: Id -> Option<Outcome>, givenUp: Id -> bool,
    outcome': Id -> Option<Outcome>, givenUp': Id -> bool)
    requires Holds(cfg, outcome, givenUp, s) && Enabled(cfg, s, Admit(k))
    requires Extends(s, Admit(k), outcome, givenUp, outcome', givenUp')
    ensures Holds(cfg, outcome', givenUp', AdmitTask(cfg, s, k))
  {
    NobodyGivesUp(s, Admit(k));
    hide GivesUp;
  }

  lemma FinishOutcomes(
    cfg: BudgetConfig, s: State, k: nat, o: Outcome, outcome: Id -> Option<Outcome>, givenUp: Id -> bool,
    outcome': Id -> Option<Outcome>, givenUp': Id -> bool)
    requires Holds(cfg, outcome, givenUp, s) && HasShape(cfg, s) && Enabled(cfg, s, Finish(k, o))
    requires Extends(s, Finish(k, o), outcome, givenUp, outcome', givenUp')
    ensures Holds(cfg, outcome', givenUp', FinishTask(cfg, s, k, o))
  {
    var t, s' := s.tasks[k], FinishTask(cfg, s, k, o);
    OthersUnfinished(cfg, s, k, o, outcome, givenUp, outcome', givenUp');
    assert TaskHolds(cfg, t, outcome(t.node.id), false);
    FinishedHolds(cfg, t.node, o);
    hide HasShape, HoldsOutcome, Finished, IsBlank, Holds, Extends;
    assert s'.nodes == s.nodes && s'.level == s.level;
    assert s'.tasks == s.tasks[k := t.(node := Finished(cfg, t.node, o), phase := Settled)];
    FinishedId(cfg, t.node, o);
    AllHold(cfg, outcome', givenUp', s');
  }

  lemma FinishedId(cfg: BudgetConfig, n: Node, o: Outcome)
    ensures Finished(cfg, n, o).id == n.id
  {
  }

  /** A Fanout that finishes concerns its own node only. */
  lemma OthersUnfinished(
    cfg: BudgetConfig, s: State, k: nat, o: Outcome, outcome: Id -> Option<Outcome>, givenUp: Id -> bool,
    outcome': Id -> Option<Outcome>, givenUp': Id -> bool)
    requires Holds(cfg, outcome, givenUp, s) && HasShape(cfg, s) && Enabled(cfg, s, Finish(k, o))
    requires Extends(s, Finish(k, o), outcome, givenUp, outcome', givenUp')
    ensures outcome'(s.tasks[k].node.id) == Some(o)
    ensures forall i :: 0 <= i < |s.nodes| ==>
        HoldsOutcome(cfg, s.nodes[i], outcome'(s.nodes[i].id), givenUp'(s.nodes[i].id))
    ensures forall j :: 0 <= j < |s.tasks| && j != k ==> TaskHolds(cfg, s.tasks[j], outcome'(s.tasks[j].node.id), false)
    ensures forall id {:trigger outcome'(id)} :: |id| > s.level ==> outcome'(id) == None
    ensures forall id {:trigger givenUp'(id)} :: |id| >= s.level ==> !givenUp'(id)
    ensures s.level > 0 ==> outcome'([]).Some? && outcome'([]).value.Answer?
    ensures !givenUp'(s.tasks[k].node.id)
  {
    OnlyOneFinishes(cfg, s, k, o);
    NobodyGivesUp(s, Finish(k, o));
    IdLengths(cfg, s);
    hide HasShape, HoldsOutcome, TaskHolds, GivesUp;
    assert Finishes(s, Finish(k, o), s.tasks[k].node.id);
    hide Finishes;
  }

  lemma NobodyGivesUp(s: State, e: Event)
    requires !e.Decompose?
    ensures forall id :: !GivesUp(s, e, id)
  {
  }

  lemma FinishedHolds(cfg: BudgetConfig, n: Node, o: Outcome)
    requires IsBlank(n)
    ensures HoldsOutcome(cfg, Finished(cfg, n, o), Some(o), false)
  {
  }

  /** No other node, recorded or not, has the id of an unrecorded task. */
  lemma OnlyOneFinishes(cfg: BudgetConfig, s: State, k: nat, o: Outcome)
    requires HasShape(cfg, s) && k < |s.tasks| && s.tasks[k].phase.Fanning?
    ensures forall i :: 0 <= i < |s.nodes| ==> !Finishes(s, Finish(k, o), s.nodes[i].id)
    ensures forall j :: 0 <= j < |s.tasks| && j != k ==> !Finishes(s, Finish(k, o), s.tasks[j].node.id)
    ensures forall id {:trigger Finishes(s, Finish(k, o), id)} :: |id| != s.level ==> !Finishes(s, Finish(k, o), id)
  {
    var nodes := TaskNodes(s.tasks);
    forall j | 0 <= j < |s.tasks| && j != k
      ensures s.tasks[j].node.id != s.tasks[k].node.id
    {
      assert nodes[j].id != nodes[k].id;
    }
  }

  lemma AppendOutcomes(
    cfg: BudgetConfig, s: State, k: nat, outcome: Id -> Option<Outcome>, givenUp: Id -> bool,
    outcome': Id -> Option<Outcome>, givenUp': Id -> bool)
    requires Holds(cfg, outcome, givenUp, s) && HasShape(cfg, s) && Enabled(cfg, s, Append(k))
    requires Extends(s, Append(k), outcome, givenUp, outcome', givenUp')
    ensures Holds(cfg, outcome', givenUp', AppendTask(s, k))
  {
    var s' := AppendTask(s, k);
    AppendKeeps(cfg, s, k, outcome, givenUp, outcome', givenUp');
    hide HasShape, HoldsOutcome, Holds, Extends;
    assert s'.nodes == s.nodes + [s.tasks[k].node] && s'.level == s.level;
    assert s'.tasks == s.tasks[k := s.tasks[k].(phase := Recorded)];
    AllHold(cfg, outcome', givenUp', s');
  }

  lemma AppendKeeps(
    cfg: BudgetConfig, s: State, k: nat, outcome: Id -> Option<Outcome>, givenUp: Id -> bool,
    outcome': Id -> Option<Outcome>, givenUp': Id -> bool)
    requires Holds(cfg, outcome, givenUp, s) && HasShape(cfg, s) && Enabled(cfg, s, Append(k))
    requires Extends(s, Append(k), outcome, givenUp, outcome', givenUp')
    ensures forall i :: 0 <= i < |s.nodes| ==>
        HoldsOutcome(cfg, s.nodes[i], outcome'(s.nodes[i].id), givenUp'(s.nodes[i].id))
    ensures forall j :: 0 <= j < |s.tasks| ==> TaskHolds(cfg, s.tasks[j], outcome'(s.tasks[j].node.id), false)
    ensures HoldsOutcome(cfg, s.tasks[k].node, outcome'(s.tasks[k].node.id), givenUp'(s.tasks[k].node.id))
    ensures forall id {:trigger outcome'(id)} :: |id| > s.level ==> outcome'(id) == None
    ensures forall id {:trigger givenUp'(id)} :: |id| >= s.level ==> !givenUp'(id)
    ensures s.level > 0 ==> outcome'([]).Some? && outcome'([]).value.Answer?
  {
    NobodyGivesUp(s, Append(k));
    IdLengths(cfg, s);
    assert TaskHolds(cfg, s.tasks[k], outcome(s.tasks[k].node.id), false);
    hide HasShape, HoldsOutcome, GivesUp;
  }

  lemma DecomposeOutcomes(
    cfg: BudgetConfig, s: State, answers: seq<Option<seq<string>>>, outcome: Id -> Option<Outcome>,
    givenUp: Id -> bool, outcome': Id -> Option<Outcome>, givenUp': Id -> bool)
    requires Holds(cfg, outcome, givenUp, s) && HasShape(cfg, s) && Enabled(cfg, s, Decompose(answers))
    requires Extends(s, Decompose(answers), outcome, givenUp, outcome', givenUp')
    ensures Holds(cfg, outcome', givenUp', DecomposeAll(s, answers))
  {
    var s' := DecomposeAll(s, answers);
    RootAnswered(cfg, s, outcome, givenUp);
    DecomposedRest(cfg, s, answers, outcome, givenUp, outcome', givenUp');
    hide HasShape, Holds, Extends;
    forall i | 0 <= i < |s'.nodes|
      ensures HoldsOutcome(cfg, s'.nodes[i], outcome'(s'.nodes[i].id), givenUp'(s'.nodes[i].id))
    {
      DecomposedNode(cfg, s, answers, outcome, givenUp, outcome', givenUp', i);
    }
    forall k | 0 <= k < |s'.tasks|
      ensures TaskHolds(cfg, s'.tasks[k], outcome'(s'.tasks[k].node.id), false)
    {
      DecomposedTask(cfg, s, answers, outcome, givenUp, outcome', givenUp', k);
    }
    hide HoldsOutcome, TaskHolds, DecomposeAll, Enabled, InFrontier;
    assert s'.level == s.level + 1;
    AllHold(cfg, outcome', givenUp', s');
  }

  lemma AllHold(cfg: BudgetConfig, outcome: Id -> Option<Outcome>, givenUp: Id -> bool, s: State)
    requires forall i :: 0 <= i < |s.nodes| ==>
        HoldsOutcome(cfg, s.nodes[i], outcome(s.nodes[i].id), givenUp(s.nodes[i].id))
    requires forall k :: 0 <= k < |s.tasks| ==> TaskHolds(cfg, s.tasks[k], outcome(s.tasks[k].node.id), false)
    requires forall id {:trigger outcome(id)} :: |id| > s.level ==> outcome(id) == None
    requires forall id {:trigger givenUp(id)} :: |id| >= s.level ==> !givenUp(id)
    requires s.level > 0 ==> outcome([]).Some? && outcome([]).value.Answer?
    ensures Holds(cfg, outcome, givenUp, s)
  {
    hide HoldsOutcome, TaskHolds;
  }

  /** Ids below the new level are not affected. */
  lemma DecomposedRest(
    cfg: BudgetConfig, s: State, answers: seq<Option<seq<string>>>, outcome: Id -> Option<Outcome>,
    givenUp: Id -> bool, outcome': Id -> Option<Outcome>, givenUp': Id -> bool)
    requires Holds(cfg, outcome, givenUp, s) && HasShape(cfg, s)
    requires Extends(s, Decompose(answers), outcome, givenUp, outcome', givenUp')
    ensures forall id {:trigger outcome'(id)} :: outcome'(id) == outcome(id)
    ensures forall id {:trigger outcome'(id)} :: |id| > s.level + 1 ==> outcome'(id) == None
    ensures forall id {:trigger givenUp'(id)} :: |id| >= s.level + 1 ==> !givenUp'(id)
  {
    IdLengths(cfg, s);
    OnlyThisLevelGivesUp(cfg, s, answers);
    hide HasShape, HoldsOutcome, TaskHolds, GivesUp;
  }

  lemma OnlyThisLevelGivesUp(cfg: BudgetConfig, s: State, answers: seq<Option<seq<string>>>)
    requires forall i :: 0 <= i < |s.nodes| ==> |s.nodes[i].id| == s.nodes[i].depth
    ensures forall id {:trigger GivesUp(s, Decompose(answers), id)} ::
        GivesUp(s, Decompose(answers), id) ==> |id| == s.level
  {
    forall id | GivesUp(s, Decompose(answers), id)
      ensures |id| == s.level
    {
      var i :| GivesUpAt(s, Decompose(answers), id, i);
    }
  }

  /** Ids are as long as their nodes are deep. */
  lemma IdLengths(cfg: BudgetConfig, s: State)
    requires HasShape(cfg, s)
    ensures forall i :: 0 <= i < |s.nodes| ==> |s.nodes[i].id| == s.nodes[i].depth <= s.level
    ensures forall k :: 0 <= k < |s.tasks| ==> |s.tasks[k].node.id| == s.level
  {
    hide HasParent, KnowsParentTokens, IdsUnique;
  }

  lemma DecomposedNode(
    cfg: BudgetConfig, s: State, answers: seq<Option<seq<string>>>, outcome: Id -> Option<Outcome>,
    givenUp: Id -> bool, outcome': Id -> Option<Outcome>, givenUp': Id -> bool, i: nat)
    requires Holds(cfg, outcome, givenUp, s) && HasShape(cfg, s) && |answers| == |s.nodes| && i < |s.nodes|
    requires Extends(s, Decompose(answers), outcome, givenUp, outcome', givenUp')
    ensures
      var n := AfterDecompose(s.nodes, answers, s.level)[i];
      HoldsOutcome(cfg, n, outcome'(n.id), givenUp'(n.id))
  {
    hide HasShape, HoldsOutcome, GivesUp;
    OnlyOneGivesUp(cfg, s, answers, i);
    IdLengths(cfg, s);
    var n := s.nodes[i];
    assert HoldsOutcome(cfg, n, outcome(n.id), givenUp(n.id));
    if InFrontier(n, s.level) && answers[i].None? {
      GivingUpHolds(cfg, n, outcome(n.id));
    }
  }

  lemma GivingUpHolds(cfg: BudgetConfig, n: Node, outcome: Option<Outcome>)
    requires HoldsOutcome(cfg, n, outcome, false) && n.status.Complete?
    ensures HoldsOutcome(cfg, n.(status := Failed), outcome, true)
  {
  }

  lemma DecomposedTask(
    cfg: BudgetConfig, s: State, answers: seq<Option<seq<string>>>, outcome: Id -> Option<Outcome>,
    givenUp: Id -> bool, outcome': Id -> Option<Outcome>, givenUp': Id -> bool, k: nat)
    requires Holds(cfg, outcome, givenUp, s) && HasShape(cfg, s) && |answers| == |s.nodes|
    requires Extends(s, Decompose(answers), outcome, givenUp, outcome', givenUp')
    requires k < |DecomposeAll(s, answers).tasks|
    ensures
      var t := DecomposeAll(s, answers).tasks[k];
      TaskHolds(cfg, t, outcome'(t.node.id), false)
  {
    DecomposeTasks(s, answers);
    hide HasShape, Children, HoldsOutcome, TasksPlaced, DistinctIds;
    var children := Children(s.nodes, answers, s.level, |s.nodes|);
    ChildrenBlank(s.nodes, answers, s.level, |s.nodes|);
    assert children[k] in children && |children[k].id| == s.level + 1;
  }

  lemma OnlyOneGivesUp(cfg: BudgetConfig, s: State, answers: seq<Option<seq<string>>>, i: nat)
    requires HasShape(cfg, s) && |answers| == |s.nodes| && i < |s.nodes|
    ensures GivesUp(s, Decompose(answers), s.nodes[i].id) <==> InFrontier(s.nodes[i], s.level) && answers[i].None?
  {
    if InFrontier(s.nodes[i], s.level) && answers[i].None? {
      assert GivesUpAt(s, Decompose(answers), s.nodes[i].id, i);
    }
    if j :| GivesUpAt(s, Decompose(answers), s.nodes[i].id, j) {
      assert j == i;
    }
  }

  lemma SiblingsBlank(parent: Node, queries: seq<string>)
    ensures forall c :: c in ChildrenOf(parent, queries) ==> c.status == Pending && IsBlank(c) && c.reservedTokens == 0
  {
  }

  lemma {:induction false} ChildrenBlank(nodes: seq<Node>, answers: seq<Option<seq<string>>>, level: nat, n: nat)
    requires n <= |nodes| == |answers|
    ensures forall c :: c in Children(nodes, answers, level, n) ==>
        c.status == Pending && IsBlank(c) && c.reservedTokens == 0
  {
    hide ChildrenOf, IsBlank;
    if n > 0 {
      ChildrenBlank(nodes, answers, level, n - 1);
      if InFrontier(nodes[n - 1], level) && answers[n - 1].Some? {
        SiblingsBlank(nodes[n - 1], answers[n - 1].value);
      }
    }
  }

  /** A first decomposition takes a root that answered. */
  lemma RootAnswered(cfg: BudgetConfig, s: State, outcome: Id -> Option<Outcome>, givenUp: Id -> bool)
    requires Holds(cfg, outcome, givenUp, s) && HasShape(cfg, s)
    requires exists i :: 0 <= i < |s.nodes| && InFrontier(s.nodes[i], s.level)
    ensures outcome([]).Some? && outcome([]).value.Answer?
  {
    var i :| 0 <= i < |s.nodes| && InFrontier(s.nodes[i], s.level);
    IdLengths(cfg, s);
    if s.level == 0 {
      assert s.nodes[i].id == [];
      assert HoldsOutcome(cfg, s.nodes[i], outcome(s.nodes[i].id), givenUp(s.nodes[i].id));
    }
    hide HasShape;
  }

  /** In every reachable state every finished node holds exactly the outcome of its own Fanout: an error leaves it
      failed and empty; an answer leaves it with just that answer, complete until its decomposition fails; without
      either it was refused and is empty. */
  lemma {:induction false} OutcomesInEveryRun(cfg: BudgetConfig, query: string, events: seq<Event>)
    requires Execute(cfg, query, events).Some?
    ensures OutcomesHold(cfg, query, events, Execute(cfg, query, events).value)
  {
    if events == [] {
      StartOutcomes(cfg, query);
    } else {
      var before, e := events[..|events| - 1], events[|events| - 1];
      assert events == before + [e];
      ExecuteLast(cfg, query, before, e);
      hide *;
      OutcomesInEveryRun(cfg, query, before);
      ShapeInEveryRun(cfg, query, before);
      OutcomeStep(cfg, query, before, Execute(cfg, query, before).value, e);
    }
  }

  lemma ExecuteLast(cfg: BudgetConfig, query: string, before: seq<Event>, e: Event)
    requires Execute(cfg, query, before + [e]).Some?
    ensures Execute(cfg, query, before).Some? && Enabled(cfg, Execute(cfg, query, before).value, e)
    ensures Execute(cfg, query, before + [e]) == Some(Step(cfg, Execute(cfg, query, before).value, e))
  {
    assert (before + [e])[..|before|] == before;
  }

  lemma OutcomeStep(cfg: BudgetConfig, query: string, events: seq<Event>, s: State, e: Event)
    requires Execute(cfg, query, events) == Some(s) && OutcomesHold(cfg, query, events, s) && HasShape(cfg, s)
    requires Enabled(cfg, s, e)
    ensures OutcomesHold(cfg, query, events + [e], Step(cfg, s, e))
  {
    NextOutcomes(cfg, query, events, e, s);
    hide Execute, Holds, Extends, HasShape, AdmitTask, FinishTask, AppendTask, DecomposeAll;
    var outcome, givenUp := (id: Id) => FanoutOf(cfg, query, events, id), (id: Id) => GivenUp(cfg, query, events, id);
    var outcome' := (id: Id) => FanoutOf(cfg, query, events + [e], id);
    var givenUp' := (id: Id) => GivenUp(cfg, query, events + [e], id);
    match e
    case Admit(k) => AdmitOutcomes(cfg, s, k, outcome, givenUp, outcome', givenUp');
    case Finish(k, o) => FinishOutcomes(cfg, s, k, o, outcome, givenUp, outcome', givenUp');
    case Append(k) => AppendOutcomes(cfg, s, k, outcome, givenUp, outcome', givenUp');
    case Decompose(answers) => DecomposeOutcomes(cfg, s, answers, outcome, givenUp, outcome', givenUp');
  }

  lemma StartOutcomes(cfg: BudgetConfig, query: string)
    ensures OutcomesHold(cfg, query, [], Initial(query))
  {
  }

  // ---------- sub-queries ----------

  /** At this step the parent's decomposition returned `q` at the place the id names. */
  predicate AsksAt(s: State, e: Event, id: Id, q: string, i: nat) {
    && e.Decompose? && i < |s.nodes| == |e.answers| && id != [] && s.nodes[i].id == id[..|id| - 1]
    && e.answers[i].Some? && id[|id| - 1] < |e.answers[i].value| && e.answers[i].value[id[|id| - 1]] == q
  }

  ghost predicate Asks(s: State, e: Event, id: Id, q: string) {
    exists i :: AsksAt(s, e, id, q, i)
  }

  /** The node with this id stands for `q`: the root for the query of the run, any other node for the sub-query its
      parent's decomposition returned at its place. */
  ghost predicate StandsFor(cfg: BudgetConfig, query: string, events: seq<Event>, id: Id, q: string) {
    if events == [] then id == [] && q == query
    else
      var before, e := events[..|events| - 1], events[|events| - 1];
      match Execute(cfg, query, before)
      case None => false
      case Some(s) => Asks(s, e, id, q) || StandsFor(cfg, query, before, id, q)
  }

  ghost predicate QueriesHold(cfg: BudgetConfig, query: string, events: seq<Event>, s: State) {
    && (forall i :: 0 <= i < |s.nodes| ==> StandsFor(cfg, query, events, s.nodes[i].id, s.nodes[i].query))
    && (forall k :: 0 <= k < |s.tasks| ==> StandsFor(cfg, query, events, s.tasks[k].node.id, s.tasks[k].node.query))
  }

  lemma SiblingsAsked(s: State, answers: seq<Option<seq<string>>>, i: nat)
    requires i < |s.nodes| == |answers| && answers[i].Some?
    ensures forall c :: c in ChildrenOf(s.nodes[i], answers[i].value) ==> Asks(s, Decompose(answers), c.id, c.query)
  {
    var own := ChildrenOf(s.nodes[i], answers[i].value);
    forall q | 0 <= q < |own|
      ensures Asks(s, Decompose(answers), own[q].id, own[q].query)
    {
      assert own[q].id[..|own[q].id| - 1] == s.nodes[i].id;
      assert AsksAt(s, Decompose(answers), own[q].id, own[q].query, i);
    }
    hide Asks, ChildrenOf;
  }

  lemma {:induction false} ChildrenAsked(s: State, answers: seq<Option<seq<string>>>, n: nat)
    requires n <= |s.nodes| == |answers|
    ensures forall c :: c in Children(s.nodes, answers, s.level, n) ==> Asks(s, Decompose(answers), c.id, c.query)
  {
    hide Asks, ChildrenOf;
    if n > 0 {
      ChildrenAsked(s, answers, n - 1);
      if InFrontier(s.nodes[n - 1], s.level) && answers[n - 1].Some? {
        SiblingsAsked(s, answers, n - 1);
      }
    }
  }

  lemma StandsOn(cfg: BudgetConfig, query: string, events: seq<Event>, e: Event, s: State)
    requires Execute(cfg, query, events) == Some(s)
    ensures forall id, q {:trigger StandsFor(cfg, query, events + [e], id, q)} ::
        StandsFor(cfg, query, events + [e], id, q) <==> Asks(s, e, id, q) || StandsFor(cfg, query, events, id, q)
  {
    assert (events + [e])[..|events|] == events;
  }

  lemma QueryStep(cfg: BudgetConfig, query: string, events: seq<Event>, e: Event, s: State)
    requires Execute(cfg, query, events) == Some(s) && QueriesHold(cfg, query, events, s) && Enabled(cfg, s, e)
    ensures QueriesHold(cfg, query, events + [e], Step(cfg, s, e))
  {
    StandsOn(cfg, query, events, e, s);
    if e.Decompose? {
      ChildrenAsked(s, e.answers, |s.nodes|);
    }
    hide Execute, StandsFor, Asks, Children;
    if e.Decompose? {
      var children := Children(s.nodes, e.answers, s.level, |s.nodes|);
      forall k | 0 <= k < |children|
        ensures Asks(s, e, children[k].id, children[k].query)
      {
        assert children[k] in children;
      }
    }
  }

  /** In every reachable state every node stands for the sub-query it was created for. */
  lemma {:induction false} QueriesInEveryRun(cfg: BudgetConfig, query: string, events: seq<Event>)
    requires Execute(cfg, query, events).Some?
    ensures QueriesHold(cfg, query, events, Execute(cfg, query, events).value)
  {
    if events != [] {
      var n := |events| - 1;
      QueriesInEveryRun(cfg, query, events[..n]);
      assert events == events[..n] + [events[n]];
      QueryStep(cfg, query, events[..n], events[n], Execute(cfg, query, events[..n]).value);
    }
  }
}
