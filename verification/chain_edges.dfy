/**
 * What the two chain splitters agree on: where an error-propagation chain starts, which
 * edges continue it, and the acyclicity both need to terminate.
 */
module ChainEdges {
  import opened Graph

  /** A chain starts at a call that returns an error the caller does not propagate. */
  predicate IsStart(e: CallEdge)
  {
    e.isError && !e.propagates
  }

  /** A chain continues through a call whose error the caller propagates. */
  predicate Continues(e: CallEdge)
  {
    e.isError && e.propagates
  }

  /**
   * The termination witness for both splitters. Neither keeps a visited set, so they recurse
   * without end on a cycle of continuing edges that a chain start reaches; cycles no start
   * reaches are never visited. `live` holds the nodes a chain may reach and `height` strictly
   * decreases along every continuing edge leaving one of them.
   */
  datatype Ranking = Ranking(live: set<nat>, height: seq<nat>)

  /**
   * `live` is closed under continuing edges and `height` strictly decreases along each of them
   * that leaves a live node, so no cycle of continuing edges passes through a live node.
   */
  predicate Ranked(g: CallGraph, rank: Ranking)
  {
    && |rank.height| == |g.nodes|
    && forall e | e in g.edges && Continues(e) && e.from in rank.live ::
      && e.to in rank.live && e.from < |rank.height| && e.to < |rank.height|
      && rank.height[e.to] < rank.height[e.from]
  }

  /** Every node a chain starts from is live. */
  predicate CoversStarts(g: CallGraph, rank: Ranking)
  {
    forall e | e in g.edges && IsStart(e) :: e.to in rank.live
  }

  /** A graph in which no edge starts a chain needs no ranking at all. */
  lemma NoStartsNoRanking(g: CallGraph)
    requires forall e | e in g.edges :: !IsStart(e)
    ensures var rank := Ranking({}, seq(|g.nodes|, _ => 0));
      Ranked(g, rank) && CoversStarts(g, rank)
  {
  }

  /**
   * The ranking demands nothing more than that no chain runs into a cycle: a path of
   * continuing edges from a live node never returns to where it began.
   */
  lemma {:induction false} RankedNoCycle(g: CallGraph, rank: Ranking, path: seq<CallEdge>)
    requires Ranked(g, rank) && |path| >= 1 && path[0].from in rank.live
    requires forall k | 0 <= k < |path| :: path[k] in g.edges && Continues(path[k])
    requires forall k | 0 <= k < |path| - 1 :: path[k].to == path[k + 1].from
    ensures path[|path| - 1].to in rank.live
    ensures path[|path| - 1].to < |rank.height| && path[0].from < |rank.height|
    ensures rank.height[path[|path| - 1].to] < rank.height[path[0].from]
    ensures path[|path| - 1].to != path[0].from
    decreases |path|
  {
    if |path| > 1 {
      var init := path[..|path| - 1];
      RankedNoCycle(g, rank, init);
      assert path[|path| - 1] in g.edges && Continues(path[|path| - 1]);
    } else {
      assert path[0] in g.edges && Continues(path[0]);
    }
  }

  /** No continuing edge leaves node `n`: a chain that reaches `n` ends there. */
  predicate EndsAt(g: CallGraph, n: nat)
  {
    forall e | e in g.edges && e.from == n :: !Continues(e)
  }
}
