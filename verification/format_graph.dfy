/**
 * `analysis/format_graph.rs`: every chain start is expanded into all maximal paths of
 * continuing edges below it, and each path is laid out in the chain graph as a line of fresh
 * nodes, so that no two paths share a node.
 */
module FormatGraph {
  import opened Wrappers
  import opened Graph
  import opened ChainEdges

  // ---------------------------------------------------------------------------------------
  // `find_chains`
  // ---------------------------------------------------------------------------------------

  /** Every chain of `cs`, with `e` in front. */
  function PrefixAll(e: CallEdge, cs: seq<seq<CallEdge>>): (r: seq<seq<CallEdge>>)
    ensures |r| == |cs|
    ensures forall k | 0 <= k < |r| :: r[k] == [e] + cs[k]
  {
    seq(|cs|, k requires 0 <= k < |cs| => [e] + cs[k])
  }

  /**
   * `find_chains`: for each continuing edge leaving the start edge's target, in edge order,
   * that edge's chains with the start edge in front; the start edge alone when there is none.
   */
  function FindChains(g: CallGraph, ghost rank: Ranking, start: CallEdge): (r: seq<seq<CallEdge>>)
    requires Valid(g) && Ranked(g, rank) && start.to < |g.nodes| && start.to in rank.live
    ensures |r| >= 1
    ensures forall c | c in r :: |c| >= 1 && c[0] == start
    decreases rank.height[start.to], 1
  {
    var res := Extensions(g, rank, start, GetOutgoingEdges(g.edges, start.to), start.to);
    if res == [] then [[start]] else res
  }

  /** The loop of `find_chains` over the edges `es` leaving node `n`. */
  function Extensions(g: CallGraph, ghost rank: Ranking, start: CallEdge, es: seq<CallEdge>, ghost n: nat): (r: seq<seq<CallEdge>>)
    requires Valid(g) && Ranked(g, rank) && n < |g.nodes| && n in rank.live
    requires forall x | x in es :: x in g.edges && x.from == n
    ensures forall c | c in r :: |c| >= 1 && c[0] == start
    decreases rank.height[n], 0, |es|
  {
    if es == [] then []
    else
      assert es[0] in es;
      (if Continues(es[0]) then PrefixAll(start, FindChains(g, rank, es[0])) else [])
      + Extensions(g, rank, start, es[1..], n)
  }

  /**
   * The independent account of `find_chains`: a path that begins with `start`, continues
   * through continuing edges of the graph, each leaving the node the previous one enters,
   * and stops where no continuing edge leaves.
   */
  predicate IsMaximalChain(g: CallGraph, start: CallEdge, c: seq<CallEdge>)
  {
    && |c| >= 1 && c[0] == start
    && (forall k | 1 <= k < |c| :: c[k] in g.edges && Continues(c[k]))
    && (forall k | 0 <= k < |c| - 1 :: c[k].to == c[k + 1].from)
    && EndsAt(g, c[|c| - 1].to)
  }

  /** A maximal chain from a continuing edge out of the start edge's callee, with the start edge in front. */
  lemma MaximalCons(g: CallGraph, start: CallEdge, c: seq<CallEdge>)
    requires |c| >= 2 && c[0] == start && c[1] in g.edges && Continues(c[1]) && c[1].from == start.to
    requires IsMaximalChain(g, c[1], c[1..])
    ensures IsMaximalChain(g, start, c)
  {
    assert forall k | 1 <= k < |c| :: c[k] == c[1..][k - 1];
  }

  lemma MaximalTail(g: CallGraph, start: CallEdge, c: seq<CallEdge>)
    requires IsMaximalChain(g, start, c) && |c| >= 2
    ensures IsMaximalChain(g, c[1], c[1..]) && c == [start] + c[1..]
  {
  }

  lemma {:induction false} ExtensionsNone(g: CallGraph, rank: Ranking, start: CallEdge, es: seq<CallEdge>, n: nat)
    requires Valid(g) && Ranked(g, rank) && n < |g.nodes| && n in rank.live
    requires forall x | x in es :: x in g.edges && x.from == n
    ensures Extensions(g, rank, start, es, n) == [] <==> forall x | x in es :: !Continues(x)
    decreases |es|
  {
    if es != [] {
      assert es[0] in es;
      ExtensionsNone(g, rank, start, es[1..], n);
      assert forall x | x in es[1..] :: x in es;
      assert forall x | x in es :: x == es[0] || x in es[1..];
    }
  }

  /** Every chain found is a maximal chain from the start edge. */
  lemma {:induction false} FindChainsSound(g: CallGraph, rank: Ranking, start: CallEdge, c: seq<CallEdge>)
    requires Valid(g) && Ranked(g, rank) && start.to < |g.nodes| && start.to in rank.live
    requires c in FindChains(g, rank, start)
    ensures IsMaximalChain(g, start, c)
    decreases rank.height[start.to], 1
  {
    var out := GetOutgoingEdges(g.edges, start.to);
    var res := Extensions(g, rank, start, out, start.to);
    if res == [] {
      ExtensionsNone(g, rank, start, out, start.to);
      assert c == [start];
    } else {
      ExtensionsSound(g, rank, start, out, start.to, c);
      MaximalCons(g, start, c);
    }
  }

  lemma {:induction false} ExtensionsSound(g: CallGraph, rank: Ranking, start: CallEdge, es: seq<CallEdge>, n: nat, c: seq<CallEdge>)
    requires Valid(g) && Ranked(g, rank) && n < |g.nodes| && n in rank.live
    requires forall x | x in es :: x in g.edges && x.from == n
    requires c in Extensions(g, rank, start, es, n)
    ensures |c| >= 2 && c[0] == start && c[1] in es && Continues(c[1])
    ensures IsMaximalChain(g, c[1], c[1..])
    decreases rank.height[n], 0, |es|
  {
    var e := es[0];
    assert e in es;
    var here: seq<seq<CallEdge>> := if Continues(e) then PrefixAll(start, FindChains(g, rank, e)) else [];
    if c in here {
      var k :| 0 <= k < |here| && here[k] == c;
      var d := FindChains(g, rank, e)[k];
      assert c == [start] + d;
      FindChainsSound(g, rank, e, d);
      assert c[1..] == d;
    } else {
      assert c in Extensions(g, rank, start, es[1..], n);
      ExtensionsSound(g, rank, start, es[1..], n, c);
    }
  }

  /** Every maximal chain from the start edge is found. */
  lemma {:induction false} FindChainsComplete(g: CallGraph, rank: Ranking, start: CallEdge, c: seq<CallEdge>)
    requires Valid(g) && Ranked(g, rank) && start.to < |g.nodes| && start.to in rank.live
    requires IsMaximalChain(g, start, c)
    ensures c in FindChains(g, rank, start)
    decreases rank.height[start.to]
  {
    var out := GetOutgoingEdges(g.edges, start.to);
    ExtensionsNone(g, rank, start, out, start.to);
    if |c| == 1 {
      assert c == [start];
      assert forall x | x in out :: !Continues(x);
    } else {
      var x := c[1];
      MaximalTail(g, start, c);
      assert x in out;
      FindChainsComplete(g, rank, x, c[1..]);
      ExtensionsContain(g, rank, start, out, start.to, x, c[1..]);
    }
  }

  lemma {:induction false} ExtensionsContain(g: CallGraph, rank: Ranking, start: CallEdge, es: seq<CallEdge>, n: nat,
                                             x: CallEdge, d: seq<CallEdge>)
    requires Valid(g) && Ranked(g, rank) && n < |g.nodes| && n in rank.live
    requires forall y | y in es :: y in g.edges && y.from == n
    requires x in es && Continues(x) && d in FindChains(g, rank, x)
    ensures [start] + d in Extensions(g, rank, start, es, n)
    decreases |es|
  {
    var e := es[0];
    assert e in es;
    if x == e {
      var k :| 0 <= k < |FindChains(g, rank, x)| && FindChains(g, rank, x)[k] == d;
      assert PrefixAll(start, FindChains(g, rank, x))[k] == [start] + d;
    } else {
      assert x in es[1..];
      ExtensionsContain(g, rank, start, es[1..], n, x, d);
    }
  }

  /** `find_chains` returns exactly the maximal chains from the start edge. */
  lemma FindChainsExact(g: CallGraph, rank: Ranking, start: CallEdge, c: seq<CallEdge>)
    requires Valid(g) && Ranked(g, rank) && start.to < |g.nodes| && start.to in rank.live
    ensures c in FindChains(g, rank, start) <==> IsMaximalChain(g, start, c)
  {
    if c in FindChains(g, rank, start) {
      FindChainsSound(g, rank, start, c);
    }
    if IsMaximalChain(g, start, c) {
      FindChainsComplete(g, rank, start, c);
    }
  }

  // ---------------------------------------------------------------------------------------
  // `split_chains`
  // ---------------------------------------------------------------------------------------

  /** Nodes and edges taken by laying out `lines`: one node more than edges per line. */
  function LineNodes(lines: seq<seq<CallEdge>>): nat
  {
    if lines == [] then 0 else LineNodes(lines[..|lines| - 1]) + 1 + |lines[|lines| - 1]|
  }

  function LineEdges(lines: seq<seq<CallEdge>>): nat
  {
    if lines == [] then 0 else LineEdges(lines[..|lines| - 1]) + |lines[|lines| - 1]|
  }

  /**
   * Chain `c` is laid out in `cg` from node `nb` and edge `eb` on: a node labelled like the
   * chain's first caller, then one node per edge labelled like its callee, and the edges
   * joining them in order, carrying the calls' types.
   */
  predicate IsLineAt(g: CallGraph, c: seq<CallEdge>, cg: ChainGraph, nb: nat, eb: nat)
  {
    && |c| >= 1 && nb + 1 + |c| <= |cg.nodes| && eb + |c| <= |cg.edges|
    && c[0].from < |g.nodes| && cg.nodes[nb].name == g.nodes[c[0].from].name
    && forall k | 0 <= k < |c| ::
      && c[k].to < |g.nodes|
      && cg.nodes[nb + 1 + k].name == g.nodes[c[k].to].name
      && cg.edges[eb + k] == ChainEdge(nb + k, nb + k + 1, c[k].ty)
  }

  /** The nodes and edges of `cg` begin with the lines of `lines`, one after the other. */
  predicate LaidOut(g: CallGraph, lines: seq<seq<CallEdge>>, cg: ChainGraph)
  {
    && LineNodes(lines) <= |cg.nodes| && LineEdges(lines) <= |cg.edges|
    && (lines != [] ==>
         var prefix := lines[..|lines| - 1];
         && LaidOut(g, prefix, cg)
         && IsLineAt(g, lines[|lines| - 1], cg, LineNodes(prefix), LineEdges(prefix)))
  }

  lemma IsLineAtStable(g: CallGraph, c: seq<CallEdge>, cg1: ChainGraph, cg2: ChainGraph, nb: nat, eb: nat)
    requires ChainExtends(cg1, cg2) && IsLineAt(g, c, cg1, nb, eb)
    ensures IsLineAt(g, c, cg2, nb, eb)
  {
    ChainPrefixSame(cg1, cg2);
  }

  lemma {:induction false} LaidOutStable(g: CallGraph, lines: seq<seq<CallEdge>>, cg1: ChainGraph, cg2: ChainGraph)
    requires ChainExtends(cg1, cg2) && LaidOut(g, lines, cg1)
    ensures LaidOut(g, lines, cg2)
    decreases |lines|
  {
    if lines != [] {
      var prefix := lines[..|lines| - 1];
      LaidOutStable(g, prefix, cg1, cg2);
      IsLineAtStable(g, lines[|lines| - 1], cg1, cg2, LineNodes(prefix), LineEdges(prefix));
    }
  }

  /** Laying out one more line right after the others. */
  lemma LaidOutSnoc(g: CallGraph, lines: seq<seq<CallEdge>>, c: seq<CallEdge>, cg1: ChainGraph, cg2: ChainGraph)
    requires ChainExtends(cg1, cg2) && LaidOut(g, lines, cg1)
    requires |cg1.nodes| == LineNodes(lines) && |cg1.edges| == LineEdges(lines)
    requires IsLineAt(g, c, cg2, |cg1.nodes|, |cg1.edges|)
    requires |cg2.nodes| == |cg1.nodes| + 1 + |c| && |cg2.edges| == |cg1.edges| + |c|
    ensures LaidOut(g, lines + [c], cg2)
    ensures |cg2.nodes| == LineNodes(lines + [c]) && |cg2.edges| == LineEdges(lines + [c])
  {
    LaidOutStable(g, lines, cg1, cg2);
    assert (lines + [c])[..|lines|] == lines;
  }

  /** The innermost loop of `split_chains`: one chain becomes a line of fresh nodes. */
  method AddLine(g: CallGraph, first: nat, chain: seq<CallEdge>, cg: ChainGraph) returns (r: ChainGraph)
    requires Valid(g) && ValidChain(cg) && first < |g.nodes|
    requires |chain| >= 1 && chain[0].from == first
    requires forall e | e in chain :: e in g.edges
    ensures ValidChain(r) && ChainExtends(cg, r)
    ensures |r.nodes| == |cg.nodes| + 1 + |chain| && |r.edges| == |cg.edges| + |chain|
    ensures IsLineAt(g, chain, r, |cg.nodes|, |cg.edges|)
  {
    var added := AddChainNode(cg, g.nodes[first].name);
    var prev: nat;
    r, prev := added.0, added.1;
    assert ChainExtends(cg, r);
    var i := 0;
    while i < |chain|
      invariant 0 <= i <= |chain|
      invariant ValidChain(r) && ChainExtends(cg, r)
      invariant |r.nodes| == |cg.nodes| + 1 + i && |r.edges| == |cg.edges| + i
      invariant prev == |cg.nodes| + i
      invariant r.nodes[|cg.nodes|].name == g.nodes[first].name
      invariant forall k | 0 <= k < i ::
        && chain[k].to < |g.nodes|
        && r.nodes[|cg.nodes| + 1 + k].name == g.nodes[chain[k].to].name
        && r.edges[|cg.edges| + k] == ChainEdge(|cg.nodes| + k, |cg.nodes| + k + 1, chain[k].ty)
    {
      var chainEdge := chain[i];
      assert chainEdge in chain;
      var before := r;
      var next := AddChainNode(r, g.nodes[chainEdge.to].name);
      var node: nat;
      r, node := next.0, next.1;
      r := AddChainEdge(r, prev, node, chainEdge.ty);
      assert ChainExtends(before, r);
      ChainExtendsTransitive(cg, before, r);
      ChainPrefixSame(before, r);
      prev := node;
      i := i + 1;
    }
  }

  /** An extension keeps every node and edge that was already there. */
  lemma ChainPrefixSame(a: ChainGraph, b: ChainGraph)
    requires ChainExtends(a, b)
    ensures forall m | 0 <= m < |a.nodes| :: b.nodes[m] == a.nodes[m]
    ensures forall m | 0 <= m < |a.edges| :: b.edges[m] == a.edges[m]
  {
    forall m | 0 <= m < |a.nodes| ensures b.nodes[m] == a.nodes[m] {
      assert b.nodes[m] == b.nodes[..|a.nodes|][m];
    }
    forall m | 0 <= m < |a.edges| ensures b.edges[m] == a.edges[m] {
      assert b.edges[m] == b.edges[..|a.edges|][m];
    }
  }

  /** All chains from the start edges among the first `n` edges, in the order `split_chains` lays them out. */
  function AllLines(g: CallGraph, ghost rank: Ranking, n: nat): (r: seq<seq<CallEdge>>)
    requires Valid(g) && Ranked(g, rank) && CoversStarts(g, rank) && n <= |g.edges|
  {
    if n == 0 then []
    else
      var last := g.edges[n - 1];
      assert last in g.edges;
      AllLines(g, rank, n - 1) + (if IsStart(last) then FindChains(g, rank, last) else [])
  }

  /**
   * `cg` is what `split_chains` has built after the first `i` edges: exactly the lines of the
   * chains found from the start edges among them, one after the other.
   */
  predicate SplitUpTo(g: CallGraph, rank: Ranking, i: nat, cg: ChainGraph)
    requires Valid(g) && Ranked(g, rank) && CoversStarts(g, rank) && i <= |g.edges|
  {
    var lines := AllLines(g, rank, i);
    && ValidChain(cg) && cg.crateName == g.crateName
    && LaidOut(g, lines, cg) && |cg.nodes| == LineNodes(lines) && |cg.edges| == LineEdges(lines)
  }

  /** One start edge of `split_chains`: all its chains, each laid out as a line. */
  method SplitFromStart(g: CallGraph, ghost rank: Ranking, i: nat, cg: ChainGraph) returns (r: ChainGraph)
    requires Valid(g) && Ranked(g, rank) && CoversStarts(g, rank) && i < |g.edges| && IsStart(g.edges[i])
    requires SplitUpTo(g, rank, i, cg)
    ensures SplitUpTo(g, rank, i + 1, r)
  {
    var edge := g.edges[i];
    AllLinesNext(g, rank, i);
    var chains := FindChains(g, rank, edge);
    FoundChainsInGraph(g, rank, edge);
    r := AddLines(g, edge.from, chains, AllLines(g, rank, i), cg);
  }

  lemma AllLinesNext(g: CallGraph, rank: Ranking, i: nat)
    requires Valid(g) && Ranked(g, rank) && CoversStarts(g, rank) && i < |g.edges|
    ensures g.edges[i] in g.edges
    ensures AllLines(g, rank, i + 1)
      == AllLines(g, rank, i) + (if IsStart(g.edges[i]) then FindChains(g, rank, g.edges[i]) else [])
  {
  }

  /** An edge that starts no chain adds no line. */
  lemma SplitSkip(g: CallGraph, rank: Ranking, i: nat, cg: ChainGraph)
    requires Valid(g) && Ranked(g, rank) && CoversStarts(g, rank) && i < |g.edges| && !IsStart(g.edges[i])
    requires SplitUpTo(g, rank, i, cg)
    ensures SplitUpTo(g, rank, i + 1, cg)
  {
    AllLinesNext(g, rank, i);
    assert AllLines(g, rank, i) + [] == AllLines(g, rank, i);
  }

  /** Before any edge, the new chain graph holds no line. */
  lemma SplitStart(g: CallGraph, rank: Ranking)
    requires Valid(g) && Ranked(g, rank) && CoversStarts(g, rank)
    ensures SplitUpTo(g, rank, 0, NewChainGraph(g.crateName))
  {
  }

  /** One iteration of `split_chains`: the lines of edge `i`'s chains, if it starts any. */
  method SplitStep(g: CallGraph, ghost rank: Ranking, i: nat, cg: ChainGraph) returns (r: ChainGraph)
    requires Valid(g) && Ranked(g, rank) && CoversStarts(g, rank) && i < |g.edges|
    requires SplitUpTo(g, rank, i, cg)
    ensures SplitUpTo(g, rank, i + 1, r)
  {
    if IsStart(g.edges[i]) {
      r := SplitFromStart(g, rank, i, cg);
    } else {
      SplitSkip(g, rank, i, cg);
      r := cg;
    }
  }

  /** After the last edge, the chain graph holds exactly the lines of all chains. */
  lemma SplitDone(g: CallGraph, rank: Ranking, cg: ChainGraph)
    requires Valid(g) && Ranked(g, rank) && CoversStarts(g, rank) && SplitUpTo(g, rank, |g.edges|, cg)
    ensures ValidChain(cg) && cg.crateName == g.crateName
    ensures var lines := AllLines(g, rank, |g.edges|);
      LaidOut(g, lines, cg) && |cg.nodes| == LineNodes(lines) && |cg.edges| == LineEdges(lines)
  {
  }

  /**
   * `split_chains`: the chain graph is exactly the lines of all chains, one after the other,
   * each on nodes of its own.
   */
  method SplitChains(g: CallGraph, ghost rank: Ranking) returns (cg: ChainGraph)
    requires Valid(g) && Ranked(g, rank) && CoversStarts(g, rank)
    ensures ValidChain(cg) && cg.crateName == g.crateName
    ensures var lines := AllLines(g, rank, |g.edges|);
      LaidOut(g, lines, cg) && |cg.nodes| == LineNodes(lines) && |cg.edges| == LineEdges(lines)
  {
    cg := NewChainGraph(g.crateName);
    SplitStart(g, rank);
    var i := 0;
    while i < |g.edges|
      invariant 0 <= i <= |g.edges|
      invariant SplitUpTo(g, rank, i, cg)
    {
      cg := SplitStep(g, rank, i, cg);
      i := i + 1;
    }
    assert i == |g.edges|;
    SplitDone(g, rank, cg);
  }

  /** Chain `c` starts at caller `first` and runs over edges of the graph. */
  predicate InGraphFrom(g: CallGraph, first: nat, c: seq<CallEdge>)
  {
    |c| >= 1 && c[0].from == first && forall e | e in c :: e in g.edges
  }

  /** Every chain found from `start` starts at its caller and runs over edges of the graph. */
  lemma FoundChainsInGraph(g: CallGraph, rank: Ranking, start: CallEdge)
    requires Valid(g) && Ranked(g, rank) && start in g.edges && start.to in rank.live
    ensures forall c | c in FindChains(g, rank, start) :: InGraphFrom(g, start.from, c)
  {
    forall c | c in FindChains(g, rank, start) ensures InGraphFrom(g, start.from, c) {
      FindChainsSound(g, rank, start, c);
      forall e | e in c ensures e in g.edges {
        var k :| 0 <= k < |c| && c[k] == e;
      }
    }
  }

  lemma AppendSliceSnoc<T>(done: seq<T>, s: seq<T>, j: nat)
    requires j < |s|
    ensures done + s[..j + 1] == (done + s[..j]) + [s[j]]
  {
    SliceSnoc(s, j);
  }

  /** The middle loop of `split_chains`: the chains from one start edge, in order. */
  method AddLines(g: CallGraph, first: nat, chains: seq<seq<CallEdge>>, ghost done: seq<seq<CallEdge>>, cg: ChainGraph)
    returns (r: ChainGraph)
    requires Valid(g) && first < |g.nodes| && ValidChain(cg)
    requires forall c | c in chains :: InGraphFrom(g, first, c)
    requires LaidOut(g, done, cg) && |cg.nodes| == LineNodes(done) && |cg.edges| == LineEdges(done)
    ensures ValidChain(r) && ChainExtends(cg, r)
    ensures LaidOut(g, done + chains, r)
    ensures |r.nodes| == LineNodes(done + chains) && |r.edges| == LineEdges(done + chains)
  {
    r := cg;
    var j := 0;
    ghost var lines := done;
    assert done + chains[..0] == done;
    while j < |chains|
      invariant 0 <= j <= |chains|
      invariant ValidChain(r) && ChainExtends(cg, r)
      invariant lines == done + chains[..j]
      invariant LaidOut(g, lines, r) && |r.nodes| == LineNodes(lines) && |r.edges| == LineEdges(lines)
    {
      var chain := chains[j];
      assert chain in chains;
      var before := r;
      r := AddLine(g, first, chain, r);
      ChainExtendsTransitive(cg, before, r);
      LaidOutSnoc(g, lines, chain, before, r);
      AppendSliceSnoc(done, chains, j);
      lines := lines + [chain];
      j := j + 1;
    }
    assert chains[..j] == chains;
  }
}
