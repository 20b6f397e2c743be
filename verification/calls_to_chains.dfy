/**
 * `analysis/calls_to_chains.rs`: every chain start is expanded into the list of edges met by
 * a depth-first walk of the continuing edges below it, and each list is copied into the chain
 * graph with one fresh node per call-graph node it mentions.
 */
module CallsToChains {
  import opened Wrappers
  import opened Graph
  import opened ChainEdges

  // ---------------------------------------------------------------------------------------
  // `get_chain_from_edge`
  // ---------------------------------------------------------------------------------------

  /**
   * `get_chain_from_edge`: the edge itself, then, for each continuing edge leaving its target
   * in edge order, that edge's own chain.
   */
  function ChainFromEdge(g: CallGraph, ghost rank: Ranking, e: CallEdge): (r: seq<CallEdge>)
    requires Valid(g) && Ranked(g, rank) && e.to < |g.nodes| && e.to in rank.live
    ensures |r| >= 1 && r[0] == e
    ensures forall k | 1 <= k < |r| :: r[k] in g.edges && Continues(r[k])
    decreases rank.height[e.to], 1
  {
    [e] + ChainsBelow(g, rank, GetOutgoingEdges(g.edges, e.to), e.to)
  }

  /** The loop of `get_chain_from_edge` over the edges `es` leaving node `n`. */
  function ChainsBelow(g: CallGraph, ghost rank: Ranking, es: seq<CallEdge>, ghost n: nat): (r: seq<CallEdge>)
    requires Valid(g) && Ranked(g, rank) && n < |g.nodes| && n in rank.live
    requires forall x | x in es :: x in g.edges && x.from == n
    ensures forall x | x in r :: x in g.edges && Continues(x)
    decreases rank.height[n], 0, |es|
  {
    if es == [] then []
    else
      assert es[0] in es;
      (if Continues(es[0]) then ChainFromEdge(g, rank, es[0]) else [])
      + ChainsBelow(g, rank, es[1..], n)
  }

  /** Edge `k` of `r` leaves the target of an earlier edge of `r`. */
  predicate LeavesEarlier(r: seq<CallEdge>, k: nat)
    requires k < |r|
  {
    exists j | 0 <= j < k :: r[j].to == r[k].from
  }

  /** Every edge of `r` leaves node `n` or the target of an earlier edge of `r`. */
  predicate Preorder(r: seq<CallEdge>, n: nat)
  {
    forall k | 0 <= k < |r| :: r[k].from == n || LeavesEarlier(r, k)
  }

  /** Every edge of `r` after the first leaves the target of an earlier edge of `r`. */
  predicate Rooted(r: seq<CallEdge>)
  {
    forall k | 1 <= k < |r| :: LeavesEarlier(r, k)
  }

  lemma PreorderAppend(a: seq<CallEdge>, b: seq<CallEdge>, n: nat)
    requires Preorder(a, n) && Preorder(b, n)
    ensures Preorder(a + b, n)
  {
    forall k | 0 <= k < |a + b| && (a + b)[k].from != n
      ensures exists j | 0 <= j < k :: (a + b)[j].to == (a + b)[k].from
    {
      if k < |a| {
        var j :| 0 <= j < k && a[j].to == a[k].from;
        assert (a + b)[j] == a[j];
      } else {
        var j :| 0 <= j < k - |a| && b[j].to == b[k - |a|].from;
        assert (a + b)[j + |a|] == b[j];
      }
    }
  }

  lemma RootedCons(e: CallEdge, rest: seq<CallEdge>)
    requires Preorder(rest, e.to)
    ensures Rooted([e] + rest)
  {
    var r := [e] + rest;
    assert r[0] == e;
    forall k | 1 <= k < |r| ensures LeavesEarlier(r, k) {
      RootedConsAt(e, rest, k);
    }
  }

  lemma RootedConsAt(e: CallEdge, rest: seq<CallEdge>, k: nat)
    requires 1 <= k <= |rest| && (rest[k - 1].from == e.to || LeavesEarlier(rest, k - 1))
    ensures LeavesEarlier([e] + rest, k)
  {
    var r := [e] + rest;
    var x := rest[k - 1];
    assert r[k] == x;
    if x.from == e.to {
      assert r[0].to == r[k].from;
    } else {
      var j :| 0 <= j < k - 1 && rest[j].to == x.from;
      assert r[j + 1] == rest[j];
    }
  }

  lemma RootedPreorder(r: seq<CallEdge>, n: nat)
    requires Rooted(r) && |r| >= 1 && r[0].from == n
    ensures Preorder(r, n)
  {
  }

  /** The chain is a depth-first preorder: each later edge leaves the target of an earlier one. */
  lemma {:induction false} ChainIsPreorder(g: CallGraph, rank: Ranking, e: CallEdge)
    requires Valid(g) && Ranked(g, rank) && e.to < |g.nodes| && e.to in rank.live
    ensures Rooted(ChainFromEdge(g, rank, e))
    decreases rank.height[e.to], 1
  {
    var out := GetOutgoingEdges(g.edges, e.to);
    ChainsBelowPreorder(g, rank, out, e.to);
    RootedCons(e, ChainsBelow(g, rank, out, e.to));
  }

  lemma {:induction false} ChainsBelowPreorder(g: CallGraph, rank: Ranking, es: seq<CallEdge>, n: nat)
    requires Valid(g) && Ranked(g, rank) && n < |g.nodes| && n in rank.live
    requires forall x | x in es :: x in g.edges && x.from == n
    ensures Preorder(ChainsBelow(g, rank, es, n), n)
    decreases rank.height[n], 0, |es|
  {
    if es != [] {
      var e := es[0];
      assert e in es;
      var first: seq<CallEdge> := if Continues(e) then ChainFromEdge(g, rank, e) else [];
      if Continues(e) {
        ChainIsPreorder(g, rank, e);
        RootedPreorder(first, n);
      }
      ChainsBelowPreorder(g, rank, es[1..], n);
      PreorderAppend(first, ChainsBelow(g, rank, es[1..], n), n);
    }
  }

  /**
   * The independent account of a chain: `x` is reached from node `n` along continuing edges,
   * ending with `x`.
   */
  ghost predicate Reaches(g: CallGraph, rank: Ranking, n: nat, x: CallEdge)
    requires Valid(g) && Ranked(g, rank) && n < |g.nodes| && n in rank.live
    decreases rank.height[n]
  {
    && x in g.edges && Continues(x)
    && (x.from == n || exists y | y in g.edges && y.from == n && Continues(y) :: Reaches(g, rank, y.to, x))
  }

  /** The edges after the first are exactly the continuing edges reachable from the first edge's target. */
  lemma {:induction false} ChainMembers(g: CallGraph, rank: Ranking, e: CallEdge, x: CallEdge)
    requires Valid(g) && Ranked(g, rank) && e.to < |g.nodes| && e.to in rank.live
    ensures x in ChainFromEdge(g, rank, e)[1..] <==> Reaches(g, rank, e.to, x)
    decreases rank.height[e.to], 1
  {
    var out := GetOutgoingEdges(g.edges, e.to);
    var r := ChainFromEdge(g, rank, e);
    assert r[1..] == ChainsBelow(g, rank, out, e.to);
    ChainsBelowMembers(g, rank, out, e.to, x);
    if Reaches(g, rank, e.to, x) {
      if x.from == e.to {
        assert x in out;
      } else {
        var y :| y in g.edges && y.from == e.to && Continues(y) && Reaches(g, rank, y.to, x);
        assert y in out;
      }
    }
  }

  /** Membership in the chains below `es`: reached through one of the continuing edges of `es`. */
  lemma {:induction false} ChainsBelowMembers(g: CallGraph, rank: Ranking, es: seq<CallEdge>, n: nat, x: CallEdge)
    requires Valid(g) && Ranked(g, rank) && n < |g.nodes| && n in rank.live
    requires forall y | y in es :: y in g.edges && y.from == n
    ensures x in ChainsBelow(g, rank, es, n) <==>
      exists y | y in es && Continues(y) :: x == y || Reaches(g, rank, y.to, x)
    decreases rank.height[n], 0, |es|
  {
    if es != [] {
      var e := es[0];
      assert e in es;
      ChainsBelowMembers(g, rank, es[1..], n, x);
      if Continues(e) {
        ChainMembers(g, rank, e, x);
        var c := ChainFromEdge(g, rank, e);
        assert c == [e] + c[1..];
      }
      if exists y | y in es && Continues(y) :: x == y || Reaches(g, rank, y.to, x) {
        var y :| y in es && Continues(y) && (x == y || Reaches(g, rank, y.to, x));
        if y != e {
          assert y in es[1..];
        }
      }
    }
  }

  // ---------------------------------------------------------------------------------------
  // `split_chains`
  // ---------------------------------------------------------------------------------------

  /** The call-graph nodes a list of edges mentions. */
  function Endpoints(es: seq<CallEdge>): (s: set<nat>)
  {
    (set e | e in es :: e.from) + (set e | e in es :: e.to)
  }

  lemma EndpointsSnoc(es: seq<CallEdge>, e: CallEdge)
    ensures Endpoints(es + [e]) == Endpoints(es) + {e.from, e.to}
  {
    assert forall x | x in es + [e] :: x in es || x == e;
  }

  predicate Injective(m: map<nat, nat>)
  {
    forall a, b | a in m && b in m && a != b :: m[a] != m[b]
  }

  /** The nodes `m` maps to are nodes of `cg` added after the first `base`, labelled as in `g`. */
  predicate MapsToFresh(g: CallGraph, m: map<nat, nat>, base: nat, cg: ChainGraph)
  {
    forall i | i in m :: i < |g.nodes| && base <= m[i] < |cg.nodes| && cg.nodes[m[i]].name == g.nodes[i].name
  }

  /** `r` extends `base` by exactly one node for each key of the injective `m`. */
  predicate Mapped(g: CallGraph, base: ChainGraph, r: ChainGraph, m: map<nat, nat>)
  {
    && ValidChain(r) && ChainExtends(base, r)
    && Injective(m) && MapsToFresh(g, m, |base.nodes|, r)
    && |r.nodes| == |base.nodes| + |m|
  }

  /** The `node_map` lookup of `split_chains`: reuse the chain node of `i`, or add one with its label. */
  function MapNode(g: CallGraph, base: ChainGraph, r: ChainGraph, m: map<nat, nat>, i: nat): (res: (ChainGraph, map<nat, nat>))
    requires Mapped(g, base, r, m) && i < |g.nodes|
    ensures Mapped(g, base, res.0, res.1)
    ensures res.1.Keys == m.Keys + {i}
    ensures forall j | j in m :: res.1[j] == m[j]
    ensures ChainExtends(r, res.0) && res.0.edges == r.edges
  {
    if i in m then
      MappedReuse(r, m, i);
      (r, m)
    else
      MappedAdd(g, base, r, m, i);
      (AddChainNode(r, g.nodes[i].name).0, m[i := |r.nodes|])
  }

  lemma MappedReuse(r: ChainGraph, m: map<nat, nat>, i: nat)
    requires i in m
    ensures m.Keys + {i} == m.Keys && ChainExtends(r, r)
  {
    assert r.nodes[..|r.nodes|] == r.nodes;
    assert r.edges[..|r.edges|] == r.edges;
  }

  lemma MappedAdd(g: CallGraph, base: ChainGraph, r: ChainGraph, m: map<nat, nat>, i: nat)
    requires Mapped(g, base, r, m) && i < |g.nodes| && i !in m
    ensures var r1 := AddChainNode(r, g.nodes[i].name).0;
      Mapped(g, base, r1, m[i := |r.nodes|]) && ChainExtends(r, r1)
  {
    var r1 := AddChainNode(r, g.nodes[i].name).0;
    var m1 := m[i := |r.nodes|];
    assert ChainExtends(r, r1);
    ChainExtendsTransitive(base, r, r1);
    forall j | j in m ensures r1.nodes[m[j]] == r.nodes[m[j]] {
      assert r1.nodes[m[j]] == r1.nodes[..|r.nodes|][m[j]];
    }
    assert MapsToFresh(g, m1, |base.nodes|, r1);
    assert Injective(m1);
    assert |m1| == |m| + 1;
  }

  /** The chain edges past `start` are the mapped edges of `done`, one for one. */
  predicate EdgesFor(g: CallGraph, done: seq<CallEdge>, start: nat, r: ChainGraph, m: map<nat, nat>)
  {
    && |r.edges| == start + |done|
    && forall k | 0 <= k < |done| ::
      && done[k].from in m && done[k].to in m
      && r.edges[start + k] == ChainEdge(m[done[k].from], m[done[k].to], done[k].ty)
  }

  lemma EdgesForStep(g: CallGraph, done: seq<CallEdge>, start: nat, r: ChainGraph, m: map<nat, nat>,
                     call: CallEdge, r1: ChainGraph, m1: map<nat, nat>)
    requires EdgesFor(g, done, start, r, m)
    requires forall j | j in m :: j in m1 && m1[j] == m[j]
    requires call.from in m1 && call.to in m1
    requires r1.edges == r.edges + [ChainEdge(m1[call.from], m1[call.to], call.ty)]
    ensures EdgesFor(g, done + [call], start, r1, m1)
  {
  }

  /**
   * The inner loop of `split_chains` for one chain, with its fresh `node_map`: a call-graph
   * node met for the first time gets a new chain node with its label, and every edge of the
   * chain becomes one chain edge between the mapped nodes, carrying the edge's type.
   */
  method FlattenChain(g: CallGraph, chain: seq<CallEdge>, cg: ChainGraph) returns (r: ChainGraph, nodeMap: map<nat, nat>)
    requires Valid(g) && ValidChain(cg)
    requires forall e | e in chain :: e in g.edges
    ensures Mapped(g, cg, r, nodeMap) && nodeMap.Keys == Endpoints(chain)
    ensures EdgesFor(g, chain, |cg.edges|, r, nodeMap)
  {
    r := cg;
    nodeMap := map[];
    var i := 0;
    while i < |chain|
      invariant 0 <= i <= |chain|
      invariant Mapped(g, cg, r, nodeMap)
      invariant nodeMap.Keys == Endpoints(chain[..i])
      invariant EdgesFor(g, chain[..i], |cg.edges|, r, nodeMap)
    {
      var call := chain[i];
      assert call in chain;
      var s1 := MapNode(g, cg, r, nodeMap, call.from);
      var s2 := MapNode(g, cg, s1.0, s1.1, call.to);
      var r2 := AddChainEdge(s2.0, s2.1[call.from], s2.1[call.to], call.ty);
      FlattenStep(g, chain[..i], call, cg, r, nodeMap, s1, s2, r2);
      SliceSnoc(chain, i);
      r, nodeMap := r2, s2.1;
      i := i + 1;
    }
    assert chain[..i] == chain;
  }

  /** One iteration of the inner loop of `split_chains` keeps its invariant. */
  lemma FlattenStep(g: CallGraph, done: seq<CallEdge>, call: CallEdge, cg: ChainGraph, r: ChainGraph, m: map<nat, nat>,
                    s1: (ChainGraph, map<nat, nat>), s2: (ChainGraph, map<nat, nat>), r2: ChainGraph)
    requires call.from < |g.nodes| && call.to < |g.nodes|
    requires Mapped(g, cg, r, m) && m.Keys == Endpoints(done) && EdgesFor(g, done, |cg.edges|, r, m)
    requires s1 == MapNode(g, cg, r, m, call.from)
    requires s2 == MapNode(g, cg, s1.0, s1.1, call.to)
    requires r2 == AddChainEdge(s2.0, s2.1[call.from], s2.1[call.to], call.ty)
    ensures Mapped(g, cg, r2, s2.1) && s2.1.Keys == Endpoints(done + [call])
    ensures EdgesFor(g, done + [call], |cg.edges|, r2, s2.1)
  {
    var m2 := s2.1;
    MappedEdge(g, cg, s2.0, m2, call.from, call.to, call.ty);
    assert r2.edges == r.edges + [ChainEdge(m2[call.from], m2[call.to], call.ty)];
    EdgesForStep(g, done, |cg.edges|, r, m, call, r2, m2);
    EndpointsSnoc(done, call);
    KeysStep(m.Keys, s1.1.Keys, m2.Keys, call.from, call.to);
  }

  lemma KeysStep(k0: set<nat>, k1: set<nat>, k2: set<nat>, a: nat, b: nat)
    requires k1 == k0 + {a} && k2 == k1 + {b}
    ensures k2 == k0 + {a, b}
  {
  }

  lemma MappedEdge(g: CallGraph, cg: ChainGraph, r: ChainGraph, m: map<nat, nat>, a: nat, b: nat, ty: Option<string>)
    requires Mapped(g, cg, r, m) && a in m && b in m
    ensures Mapped(g, cg, AddChainEdge(r, m[a], m[b], ty), m)
  {
    var r2 := AddChainEdge(r, m[a], m[b], ty);
    ChainExtendsTransitive(cg, r, r2);
  }

  /** All chains of the first `n` edges, in the order `split_chains` meets their start edges. */
  function AllChains(g: CallGraph, ghost rank: Ranking, n: nat): (r: seq<CallEdge>)
    requires Valid(g) && Ranked(g, rank) && CoversStarts(g, rank) && n <= |g.edges|
    ensures forall x | x in r :: x in g.edges
  {
    if n == 0 then []
    else
      var last := g.edges[n - 1];
      assert last in g.edges;
      AllChains(g, rank, n - 1) + (if IsStart(last) then ChainFromEdge(g, rank, last) else [])
  }

  /** The edges of `cg` stand, one for one and in order, for the call edges `flat`. */
  predicate Flattened(g: CallGraph, flat: seq<CallEdge>, cg: ChainGraph)
  {
    |cg.edges| == |flat| && forall k | 0 <= k < |flat| :: SameCall(g, flat[k], cg, cg.edges[k])
  }

  /** Chain edge `ce` stands for call edge `e`: same type, endpoints labelled as the call's. */
  predicate SameCall(g: CallGraph, e: CallEdge, cg: ChainGraph, ce: ChainEdge)
  {
    && e.from < |g.nodes| && e.to < |g.nodes| && ce.from < |cg.nodes| && ce.to < |cg.nodes|
    && ce.ty == e.ty
    && cg.nodes[ce.from].name == g.nodes[e.from].name
    && cg.nodes[ce.to].name == g.nodes[e.to].name
  }

  lemma SameCallStable(g: CallGraph, e: CallEdge, cg1: ChainGraph, cg2: ChainGraph, k: nat)
    requires ChainExtends(cg1, cg2) && k < |cg1.edges| && SameCall(g, e, cg1, cg1.edges[k])
    ensures SameCall(g, e, cg2, cg2.edges[k])
  {
    assert cg2.edges[k] == cg2.edges[..|cg1.edges|][k];
    var ce := cg1.edges[k];
    assert cg2.nodes[ce.from] == cg2.nodes[..|cg1.nodes|][ce.from];
    assert cg2.nodes[ce.to] == cg2.nodes[..|cg1.nodes|][ce.to];
  }

  /** Flattening one more chain onto `before` keeps the earlier edges and adds the chain's. */
  lemma FlattenedStep(g: CallGraph, flat: seq<CallEdge>, chain: seq<CallEdge>, before: ChainGraph, after: ChainGraph, m: map<nat, nat>)
    requires Flattened(g, flat, before)
    requires Mapped(g, before, after, m) && EdgesFor(g, chain, |before.edges|, after, m)
    ensures Flattened(g, flat + chain, after)
  {
    forall k | 0 <= k < |flat| ensures SameCall(g, (flat + chain)[k], after, after.edges[k]) {
      SameCallStable(g, flat[k], before, after, k);
    }
    forall k | |flat| <= k < |flat| + |chain| ensures SameCall(g, (flat + chain)[k], after, after.edges[k]) {
      assert (flat + chain)[k] == chain[k - |flat|];
      SameCallNew(g, chain, before, after, m, k - |flat|);
    }
  }

  lemma SameCallNew(g: CallGraph, chain: seq<CallEdge>, before: ChainGraph, after: ChainGraph, m: map<nat, nat>, j: nat)
    requires Mapped(g, before, after, m) && EdgesFor(g, chain, |before.edges|, after, m) && j < |chain|
    ensures SameCall(g, chain[j], after, after.edges[|before.edges| + j])
  {
    assert after.edges[|before.edges| + j] == ChainEdge(m[chain[j].from], m[chain[j].to], chain[j].ty);
  }

  /** One start edge of `split_chains`: its chain is followed and flattened onto the graph. */
  method SplitFromStart(g: CallGraph, ghost rank: Ranking, i: nat, cg: ChainGraph) returns (r: ChainGraph)
    requires Valid(g) && Ranked(g, rank) && CoversStarts(g, rank) && i < |g.edges| && IsStart(g.edges[i])
    requires ValidChain(cg) && Flattened(g, AllChains(g, rank, i), cg)
    ensures ValidChain(r) && r.crateName == cg.crateName
    ensures Flattened(g, AllChains(g, rank, i + 1), r)
  {
    AllChainsNext(g, rank, i);
    var chain := ChainFromEdge(g, rank, g.edges[i]);
    var nodeMap;
    r, nodeMap := FlattenChain(g, chain, cg);
    FlattenedStep(g, AllChains(g, rank, i), chain, cg, r, nodeMap);
  }

  /** One iteration of `split_chains`: edge `i`'s chain, if it starts one. */
  method SplitStep(g: CallGraph, ghost rank: Ranking, i: nat, cg: ChainGraph) returns (r: ChainGraph)
    requires Valid(g) && Ranked(g, rank) && CoversStarts(g, rank) && i < |g.edges|
    requires ValidChain(cg) && Flattened(g, AllChains(g, rank, i), cg)
    ensures ValidChain(r) && r.crateName == cg.crateName
    ensures Flattened(g, AllChains(g, rank, i + 1), r)
  {
    if IsStart(g.edges[i]) {
      r := SplitFromStart(g, rank, i, cg);
    } else {
      AllChainsSkip(g, rank, i);
      r := cg;
    }
  }

  lemma AllChainsSkip(g: CallGraph, rank: Ranking, i: nat)
    requires Valid(g) && Ranked(g, rank) && CoversStarts(g, rank) && i < |g.edges| && !IsStart(g.edges[i])
    ensures AllChains(g, rank, i + 1) == AllChains(g, rank, i)
  {
    AllChainsNext(g, rank, i);
    assert AllChains(g, rank, i) + [] == AllChains(g, rank, i);
  }

  lemma AllChainsNext(g: CallGraph, rank: Ranking, i: nat)
    requires Valid(g) && Ranked(g, rank) && CoversStarts(g, rank) && i < |g.edges|
    ensures g.edges[i] in g.edges
    ensures AllChains(g, rank, i + 1)
      == AllChains(g, rank, i) + (if IsStart(g.edges[i]) then ChainFromEdge(g, rank, g.edges[i]) else [])
  {
  }

  /**
   * `split_chains`: the chain graph holds one edge per edge of every chain, in order, each
   * carrying the call's type and joining nodes labelled like the call's endpoints.
   */
  method SplitChains(g: CallGraph, ghost rank: Ranking) returns (cg: ChainGraph)
    requires Valid(g) && Ranked(g, rank) && CoversStarts(g, rank)
    ensures ValidChain(cg) && cg.crateName == g.crateName
    ensures Flattened(g, AllChains(g, rank, |g.edges|), cg)
  {
    cg := NewChainGraph(g.crateName);
    var i := 0;
    while i < |g.edges|
      invariant 0 <= i <= |g.edges|
      invariant ValidChain(cg) && cg.crateName == g.crateName
      invariant Flattened(g, AllChains(g, rank, i), cg)
    {
      cg := SplitStep(g, rank, i, cg);
      i := i + 1;
    }
    assert i == |g.edges|;
  }
}
