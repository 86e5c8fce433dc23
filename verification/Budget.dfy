/** The token ledger of internal/deepagent/budget.go and the node records it works on. */
module Budget {
  import opened Prelude

  /** The source names a node by hashing its run, its parent and its index; here the id is the path of breadth
      indexes itself, so equal ids mean equal paths. */
  type Id = seq<nat>

  datatype Status = Pending | Expanding | Complete | Failed | BudgetExceeded {
    predicate IsTerminal() {
      Complete? || Failed? || BudgetExceeded?
    }
  }

  datatype Citation = Citation(docId: string, title: string, url: string, snippet: string)

  datatype Claim = Claim(text: string, markers: seq<string>)

  datatype Node = Node(
    id: Id, depth: nat, parentId: Option<Id>, breadthIndex: nat, query: string, status: Status,
    citations: seq<Citation>, claims: seq<Claim>, tokensUsed: int, reservedTokens: int, costUsd: real)
  {
    predicate IsRoot() {
      depth == 0 && parentId.None?
    }
  }

  /** The part of the tree configuration that the expansion reads; `price` is the model's price of a token. */
  datatype BudgetConfig = BudgetConfig(tokenBudget: int, breadth: nat, depth: nat, rootEstimate: int, price: real)

  function CostOf(cfg: BudgetConfig, tokens: int): real {
    tokens as real * cfg.price
  }

  datatype Ledger = Ledger(used: int, reserved: int, nodes: int)

  function Power(b: nat, e: nat): nat {
    if e == 0 then 1 else Power(b, e - 1) * b
  }

  /** One root, and `breadth` children below every node, `depth` levels deep. */
  function MaxNodes(b: nat, depth: nat): nat {
    if depth == 0 then 1 else MaxNodes(b, depth - 1) + Power(b, depth)
  }

  /** tokens * breadth * 1.25, cut off towards zero. */
  function Headroom(tokens: int, breadth: nat): int {
    var x := tokens * breadth * 5;
    if x >= 0 then x / 4 else -((-x) / 4)
  }

  /** It is the integer next to the exact amount, on the side of zero. */
  lemma HeadroomTruncates(tokens: int, breadth: nat)
    ensures
      var exact, h := tokens as real * breadth as real * 1.25, Headroom(tokens, breadth) as real;
      if tokens >= 0 then h <= exact < h + 1.0 else h - 1.0 < exact <= h
  {
    var x := tokens * breadth;
    assert tokens as real * breadth as real == x as real;
    assert tokens >= 0 ==> x >= 0;
    assert tokens < 0 ==> x <= 0;
  }

  /** What PreCheck sets aside for a node. */
  function Estimate(node: Node, cfg: BudgetConfig): int {
    if node.IsRoot() then cfg.rootEstimate else Headroom(node.tokensUsed, cfg.breadth)
  }

  predicate TokensSuffice(ledger: Ledger, estimate: int, cfg: BudgetConfig) {
    ledger.used + ledger.reserved + estimate <= cfg.tokenBudget
  }

  predicate BelowCap(ledger: Ledger, cfg: BudgetConfig) {
    ledger.nodes < MaxNodes(cfg.breadth, cfg.depth)
  }

  /** What a finished node leaves in the reserved column: the smaller of what it reserved and what it used. */
  function Kept(node: Node): int {
    Min(node.reservedTokens, node.tokensUsed)
  }

  class BudgetTracker {
    var totalTokensUsed: int
    var totalReservedTokens: int
    var totalNodes: int

    constructor ()
      ensures View() == Ledger(0, 0, 0)
    {
      totalTokensUsed, totalReservedTokens, totalNodes := 0, 0, 0;
    }

    function View(): Ledger
      reads this
    {
      Ledger(totalTokensUsed, totalReservedTokens, totalNodes)
    }

    /** Admits a node when both caps leave room for it, and reserves its estimate in the same step. */
    method PreCheck(node: Node, cfg: BudgetConfig) returns (allowed: bool)
      modifies this`totalReservedTokens
      ensures allowed <==> TokensSuffice(old(View()), Estimate(node, cfg), cfg) && BelowCap(old(View()), cfg)
      ensures totalReservedTokens == old(totalReservedTokens) + if allowed then Estimate(node, cfg) else 0
    {
      var estimated := if node.IsRoot() then cfg.rootEstimate else Headroom(node.tokensUsed, cfg.breadth);
      var remaining := cfg.tokenBudget - totalTokensUsed - totalReservedTokens;
      if estimated > remaining {
        return false;
      }
      var maxNodes, accum := 1, 1;
      for i := 0 to cfg.depth
        invariant accum == Power(cfg.breadth, i) && maxNodes == MaxNodes(cfg.breadth, i)
      {
        accum := accum * cfg.breadth;
        maxNodes := maxNodes + accum;
      }
      if totalNodes >= maxNodes {
        return false;
      }
      totalReservedTokens := totalReservedTokens + estimated;
      return true;
    }

    /** Books the actual usage and gives back what was reserved in excess. */
    method ReleaseOnComplete(node: Node, actualTokens: int)
      modifies this
      ensures totalTokensUsed == old(totalTokensUsed) + actualTokens
      ensures totalReservedTokens
           == old(totalReservedTokens) - node.reservedTokens + Min(node.reservedTokens, actualTokens)
      ensures totalNodes == old(totalNodes) + 1
    {
      totalTokensUsed := totalTokensUsed + actualTokens;
      var excess := node.reservedTokens - actualTokens;
      if excess > 0 {
        totalReservedTokens := totalReservedTokens - excess;
      }
      totalNodes := totalNodes + 1;
    }
  }
}
