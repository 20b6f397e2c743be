/**
 * The call-graph arena of `src/graph.rs`: an append-only node vector, edges that
 * refer to nodes by index, lookup by function identity, outgoing-edge filtering,
 * the de-duplicating node walk used for rendering, and the pure edge classification
 * that drives colour and style. The smaller chain graph lives here as well.
 */
module Graph {
  import opened Wrappers
  import opened Ids

  /** `CallNodeKind`: a local function is identified by its HIR id, an external one by its `DefId`. */
  datatype NodeKind = LocalFn(def: DefId, hir: HirId) | NonLocalFn(def: DefId)

  /** `CallNode`; `panics` is reserved and never set. */
  datatype CallNode = CallNode(id: nat, name: string, kind: NodeKind, panics: bool)

  /** `CallEdge`: endpoints are node indices; `ty` and `isError` are filled in by annotation. */
  datatype CallEdge = CallEdge(from: nat, to: nat, callId: HirId, ty: Option<string>, propagates: bool, isError: bool)

  datatype CallGraph = CallGraph(nodes: seq<CallNode>, edges: seq<CallEdge>, crateName: string)

  /**
   * The arena invariant every graph built through `AddNode`/`AddEdge` keeps: a node's
   * id is its position, and edges only refer to existing nodes.
   */
  predicate Valid(g: CallGraph)
  {
    && (forall i | 0 <= i < |g.nodes| :: g.nodes[i].id == i)
    && (forall e | e in g.edges :: e.from < |g.nodes| && e.to < |g.nodes|)
  }

  /** `g2` was obtained from `g1` by appending nodes and edges only. */
  predicate Extends(g1: CallGraph, g2: CallGraph)
  {
    && |g1.nodes| <= |g2.nodes| && g2.nodes[..|g1.nodes|] == g1.nodes
    && |g1.edges| <= |g2.edges| && g2.edges[..|g1.edges|] == g1.edges
    && g2.crateName == g1.crateName
  }

  /** Extending a prefix of `s` by one element gives the next prefix. */
  lemma SliceSnoc<T>(s: seq<T>, i: nat)
    requires i < |s|
    ensures s[..i + 1] == s[..i] + [s[i]]
  {
  }

  lemma ExtendsTransitive(g1: CallGraph, g2: CallGraph, g3: CallGraph)
    requires Extends(g1, g2) && Extends(g2, g3)
    ensures Extends(g1, g3)
  {
    assert g3.nodes[..|g1.nodes|] == g3.nodes[..|g2.nodes|][..|g1.nodes|];
    assert g3.edges[..|g1.edges|] == g3.edges[..|g2.edges|][..|g1.edges|];
  }

  /** `CallGraph::new`. */
  function NewGraph(crateName: string): (g: CallGraph)
    ensures Valid(g) && |g.nodes| == 0 && |g.edges| == 0 && g.crateName == crateName
  {
    CallGraph([], [], crateName)
  }

  /**
   * `CallGraph::add_node`: appends one node whose id is the previous node count and
   * returns that id; the new node never starts out panicking.
   */
  function AddNode(g: CallGraph, name: string, kind: NodeKind): (r: (CallGraph, nat))
    ensures r.1 == |g.nodes| && |r.0.nodes| == |g.nodes| + 1
    ensures r.0.nodes[..r.1] == g.nodes && r.0.edges == g.edges && r.0.crateName == g.crateName
    ensures r.0.nodes[r.1].id == r.1 && r.0.nodes[r.1].name == name && r.0.nodes[r.1].kind == kind
    ensures !r.0.nodes[r.1].panics
    ensures Extends(g, r.0)
    ensures Valid(g) ==> Valid(r.0)
  {
    var node := CallNode(|g.nodes|, name, kind, false);
    (g.(nodes := g.nodes + [node]), node.id)
  }

  /** `CallEdge::new`: a fresh edge is not yet annotated. */
  function NewEdge(from: nat, to: nat, callId: HirId, propagates: bool): (e: CallEdge)
    ensures e.from == from && e.to == to && e.callId == callId && e.propagates == propagates
    ensures e.ty == None && !e.isError
  {
    CallEdge(from, to, callId, None, propagates, false)
  }

  /** `CallGraph::add_edge`: appends exactly one edge and leaves the nodes alone. */
  function AddEdge(g: CallGraph, e: CallEdge): (r: CallGraph)
    ensures r.nodes == g.nodes && |r.edges| == |g.edges| + 1
    ensures r.edges[..|g.edges|] == g.edges && r.edges[|g.edges|] == e
    ensures Extends(g, r)
    ensures Valid(g) && e.from < |g.nodes| && e.to < |g.nodes| ==> Valid(r)
  {
    g.(edges := g.edges + [e])
  }

  predicate IsLocalFnWith(n: CallNode, h: HirId)
  {
    n.kind.LocalFn? && n.kind.hir == h
  }

  predicate IsNonLocalFnWith(n: CallNode, d: DefId)
  {
    n.kind.NonLocalFn? && n.kind.def == d
  }

  /** The position of the first node from `i` on that satisfies `p`. */
  function FirstMatch(nodes: seq<CallNode>, p: CallNode -> bool, i: nat): (r: Option<nat>)
    requires i <= |nodes|
    ensures r.Some? ==> i <= r.value < |nodes| && p(nodes[r.value])
    ensures r.Some? ==> forall j | i <= j < r.value :: !p(nodes[j])
    ensures r.None? ==> forall j | i <= j < |nodes| :: !p(nodes[j])
    decreases |nodes| - i
  {
    if i == |nodes| then None
    else if p(nodes[i]) then Some(i)
    else FirstMatch(nodes, p, i + 1)
  }

  /**
   * `CallGraph::find_local_fn_node`: finds the first `LocalFn` node with HIR id `h`;
   * the `DefId` stored beside it plays no part.
   */
  function FindLocalFnNode(g: CallGraph, h: HirId): (r: Option<CallNode>)
    ensures r.None? <==> forall i | 0 <= i < |g.nodes| :: !IsLocalFnWith(g.nodes[i], h)
    ensures r.Some? ==> IsLocalFnWith(r.value, h) && r.value in g.nodes
    ensures Valid(g) && r.Some? ==>
      && r.value.id < |g.nodes| && g.nodes[r.value.id] == r.value
      && forall j | 0 <= j < r.value.id :: !IsLocalFnWith(g.nodes[j], h)
  {
    match FirstMatch(g.nodes, n => IsLocalFnWith(n, h), 0)
    case Some(i) => Some(g.nodes[i])
    case None => None
  }

  /**
   * `CallGraph::find_non_local_fn_node`: finds the first `NonLocalFn` node with `DefId`
   * `d`; a `LocalFn` node never matches, whatever its `DefId`.
   */
  function FindNonLocalFnNode(g: CallGraph, d: DefId): (r: Option<CallNode>)
    ensures r.None? <==> forall i | 0 <= i < |g.nodes| :: !IsNonLocalFnWith(g.nodes[i], d)
    ensures r.Some? ==> IsNonLocalFnWith(r.value, d) && r.value in g.nodes
    ensures Valid(g) && r.Some? ==>
      && r.value.id < |g.nodes| && g.nodes[r.value.id] == r.value
      && forall j | 0 <= j < r.value.id :: !IsNonLocalFnWith(g.nodes[j], d)
  {
    match FirstMatch(g.nodes, n => IsNonLocalFnWith(n, d), 0)
    case Some(i) => Some(g.nodes[i])
    case None => None
  }

  /** `CallGraph::get_outgoing_edges`: the edges leaving node `n`, in their original order. */
  function GetOutgoingEdges(edges: seq<CallEdge>, n: nat): (r: seq<CallEdge>)
    ensures |r| <= |edges|
    ensures forall e | e in r :: e in edges && e.from == n
    ensures forall e | e in edges && e.from == n :: e in r
  {
    if edges == [] then []
    else (if edges[0].from == n then [edges[0]] else []) + GetOutgoingEdges(edges[1..], n)
  }

  /**
   * Filtering distributes over concatenation; with the singleton case this pins the
   * result down as the order-preserving subsequence of edges leaving `n`.
   */
  lemma {:induction false} OutgoingEdgesAppend(a: seq<CallEdge>, b: seq<CallEdge>, n: nat)
    ensures GetOutgoingEdges(a + b, n) == GetOutgoingEdges(a, n) + GetOutgoingEdges(b, n)
  {
    if a == [] {
      assert a + b == b;
    } else {
      assert (a + b)[1..] == a[1..] + b;
      OutgoingEdgesAppend(a[1..], b, n);
    }
  }

  lemma OutgoingEdgesSingleton(e: CallEdge, n: nat)
    ensures GetOutgoingEdges([e], n) == if e.from == n then [e] else []
  {
    assert [e][1..] == [];
  }

  // ---------------------------------------------------------------------------
  // Rendering attributes (the `dot::Labeller` implementation)

  datatype Color = Purple | Red | Blue

  /** `dot::Style`: `NoStyle` is the plain line the renderer draws by default. */
  datatype Style = NoStyle | Dotted

  /** `edge_color`: purple for a propagated error, red for an error, blue for a propagation. */
  function EdgeColor(e: CallEdge): (c: Option<Color>)
    ensures c == Some(Purple) <==> e.isError && e.propagates
    ensures c == Some(Red) <==> e.isError && !e.propagates
    ensures c == Some(Blue) <==> !e.isError && e.propagates
    ensures c == None <==> !e.isError && !e.propagates
  {
    if e.isError && e.propagates then Some(Purple)
    else if e.isError then Some(Red)
    else if e.propagates then Some(Blue)
    else None
  }

  /** `edge_style`: dotted exactly for the calls that neither return an error nor propagate. */
  function EdgeStyle(e: CallEdge): (s: Style)
    ensures s == Dotted <==> !e.isError && !e.propagates
  {
    if e.isError || e.propagates then NoStyle else Dotted
  }

  /** An edge is dotted exactly when it has no colour. */
  lemma DottedIffUncoloured(e: CallEdge)
    ensures EdgeStyle(e) == Dotted <==> EdgeColor(e) == None
  {
  }

  /** `node_color`: only a panicking node is coloured. */
  function NodeColor(n: CallNode): (c: Option<Color>)
    ensures c == Some(Red) <==> n.panics
    ensures c == None <==> !n.panics
  {
    if n.panics then Some(Red) else None
  }

  /** `edge_label`: the annotated type, or `unknown` before annotation. */
  function EdgeLabel(e: CallEdge): (s: string)
    ensures e.ty.Some? ==> s == e.ty.value
    ensures e.ty.None? ==> s == "unknown"
  {
    e.ty.GetOr("unknown")
  }

  // ---------------------------------------------------------------------------
  // Equality (the `PartialEq` implementations)

  /** `PartialEq for CallNode`: same id and same kind; label and `panics` are ignored. */
  predicate NodeEq(a: CallNode, b: CallNode)
  {
    a.id == b.id && a.kind == b.kind
  }

  /** `PartialEq for CallEdge`: same endpoints; call id and annotations are ignored. */
  predicate EdgeEq(a: CallEdge, b: CallEdge)
  {
    a.to == b.to && a.from == b.from
  }

  /** In a valid graph two nodes compare equal exactly when they are the same slot. */
  lemma ValidNodeEqIsSameIndex(g: CallGraph, i: nat, j: nat)
    requires Valid(g) && i < |g.nodes| && j < |g.nodes|
    ensures NodeEq(g.nodes[i], g.nodes[j]) <==> i == j
  {
  }

  /** Edge equality cannot tell an edge from its annotated or re-flagged version. */
  lemma EdgeEqIgnoresAnnotation(e: CallEdge, ty: Option<string>, isError: bool, propagates: bool)
    ensures EdgeEq(e, e.(ty := ty, isError := isError, propagates := propagates))
  {
  }

  // ---------------------------------------------------------------------------
  // The node walk (`GraphWalk::nodes`)

  /** The endpoints of `edges` in visiting order: `from` then `to`, edge by edge. */
  function CallEndpoints(edges: seq<CallEdge>): (r: seq<nat>)
    ensures |r| == 2 * |edges|
    ensures forall k | 0 <= k < |edges| :: r[2 * k] == edges[k].from && r[2 * k + 1] == edges[k].to
  {
    if edges == [] then []
    else CallEndpoints(edges[..|edges| - 1]) + [edges[|edges| - 1].from, edges[|edges| - 1].to]
  }

  /**
   * The reference definition of the walk's order: each value of `s` kept at its first
   * occurrence, later repeats dropped.
   */
  function FirstOccurrences(s: seq<nat>): (r: seq<nat>)
    ensures forall x :: x in r <==> x in s
    ensures forall i, j | 0 <= i < j < |r| :: r[i] != r[j]
  {
    if s == [] then []
    else
      var p := s[..|s| - 1];
      FirstOccurrences(p) + (if s[|s| - 1] in p then [] else [s[|s| - 1]])
  }

  predicate Contains<N>(xs: seq<N>, y: N, same: (N, N) -> bool)
  {
    exists k | 0 <= k < |xs| :: same(xs[k], y)
  }

  /**
   * The loop shared by both `GraphWalk::nodes` implementations: visit the endpoints in
   * order and push a node unless an equal one was pushed already.
   */
  method DedupWalk<N>(nodes: seq<N>, ends: seq<nat>, same: (N, N) -> bool) returns (r: seq<N>)
    requires forall x | x in ends :: x < |nodes|
    requires forall a, b | 0 <= a < |nodes| && 0 <= b < |nodes| :: same(nodes[a], nodes[b]) <==> a == b
    ensures |r| == |FirstOccurrences(ends)|
    ensures forall k | 0 <= k < |r| :: FirstOccurrences(ends)[k] in ends && r[k] == nodes[FirstOccurrences(ends)[k]]
  {
    r := [];
    ghost var ids: seq<nat> := [];
    for i := 0 to |ends|
      invariant ids == FirstOccurrences(ends[..i])
      invariant |r| == |ids|
      invariant forall k | 0 <= k < |r| :: ids[k] < |nodes| && r[k] == nodes[ids[k]]
    {
      var x := ends[i];
      assert x in ends;
      assert ends[..i + 1][..i] == ends[..i];
      assert ends[..i + 1][i] == x;
      var seen := Contains(r, nodes[x], same);
      assert seen <==> x in ids by {
        if seen {
          var k :| 0 <= k < |r| && same(r[k], nodes[x]);
          assert ids[k] == x;
        }
        if x in ids {
          var k :| 0 <= k < |ids| && ids[k] == x;
          assert same(r[k], nodes[x]);
        }
      }
      if !seen {
        r := r + [nodes[x]];
        ids := ids + [x];
      }
    }
    assert ends[..|ends|] == ends;
  }

  /**
   * `GraphWalk::nodes` for the call graph: every node that is an endpoint of some edge,
   * once, in order of first appearance; nodes without edges are left out.
   */
  method WalkNodes(g: CallGraph) returns (r: seq<CallNode>)
    requires Valid(g)
    ensures forall k | 0 <= k < |r| :: r[k].id < |g.nodes| && r[k] == g.nodes[r[k].id] && r[k].id in CallEndpoints(g.edges)
    ensures forall e | e in g.edges :: g.nodes[e.from] in r && g.nodes[e.to] in r
    ensures forall i, j | 0 <= i < j < |r| :: !NodeEq(r[i], r[j])
    ensures |r| == |FirstOccurrences(CallEndpoints(g.edges))|
    ensures forall k | 0 <= k < |r| :: r[k].id == FirstOccurrences(CallEndpoints(g.edges))[k]
  {
    var ends := CallEndpoints(g.edges);
    forall x | x in ends
      ensures x < |g.nodes|
    {
      var p :| 0 <= p < |ends| && ends[p] == x;
      assert g.edges[p / 2] in g.edges;
    }
    r := DedupWalk(g.nodes, ends, NodeEq);
    var fo := FirstOccurrences(ends);
    forall e | e in g.edges
      ensures g.nodes[e.from] in r && g.nodes[e.to] in r
    {
      var k :| 0 <= k < |g.edges| && g.edges[k] == e;
      assert ends[2 * k] == e.from && ends[2 * k + 1] == e.to;
      assert e.from in ends && e.to in ends;
      var a :| 0 <= a < |fo| && fo[a] == e.from;
      var b :| 0 <= b < |fo| && fo[b] == e.to;
      assert r[a] == g.nodes[e.from] && r[b] == g.nodes[e.to];
    }
  }

  // ---------------------------------------------------------------------------
  // The graph identifier (`graph_id`)

  /** Characters `graph_id` keeps: ASCII letters, ASCII digits and the underscore. */
  predicate IsIdentChar(c: char)
  {
    ('a' <= c <= 'z') || ('A' <= c <= 'Z') || ('0' <= c <= '9') || c == '_'
  }

  /** `String::retain` with `IsIdentChar`. */
  function RetainIdentChars(s: string): (r: string)
    ensures |r| <= |s|
    ensures forall c | c in r :: IsIdentChar(c) && c in s
    ensures forall c | c in s && IsIdentChar(c) :: c in r
  {
    if s == [] then []
    else (if IsIdentChar(s[0]) then [s[0]] else []) + RetainIdentChars(s[1..])
  }

  lemma {:induction false} RetainAppend(a: string, b: string)
    ensures RetainIdentChars(a + b) == RetainIdentChars(a) + RetainIdentChars(b)
  {
    if a == [] {
      assert a + b == b;
    } else {
      assert (a + b)[1..] == a[1..] + b;
      RetainAppend(a[1..], b);
    }
  }

  /** A name made only of identifier characters passes through unchanged. */
  lemma {:induction false} RetainKeepsIdentifiers(s: string)
    requires forall c | c in s :: IsIdentChar(c)
    ensures RetainIdentChars(s) == s
  {
    if s != [] {
      assert forall c | c in s[1..] :: c in s;
      RetainKeepsIdentifiers(s[1..]);
    }
  }

  lemma RetainIdempotent(s: string)
    ensures RetainIdentChars(RetainIdentChars(s)) == RetainIdentChars(s)
  {
    RetainKeepsIdentifiers(RetainIdentChars(s));
  }

  /** A renderer identifier: a leading letter followed by identifier characters. */
  predicate IsDotId(s: string)
  {
    |s| > 0 && (('a' <= s[0] <= 'z') || ('A' <= s[0] <= 'Z')) && forall c | c in s :: IsIdentChar(c)
  }

  const CallGraphIdPrefix: string := "error_propagation_"
  const ChainGraphIdSuffix: string := "_chains"

  /**
   * `graph_id` of the call graph: the prefix followed by the crate name with every
   * character other than an identifier character removed.
   */
  function GraphId(g: CallGraph): (id: string)
    ensures |CallGraphIdPrefix| <= |id| && id[..|CallGraphIdPrefix|] == CallGraphIdPrefix
    ensures id[|CallGraphIdPrefix|..] == RetainIdentChars(g.crateName)
    ensures IsDotId(id)
  {
    var id := CallGraphIdPrefix + RetainIdentChars(g.crateName);
    PrefixedIsDotId(RetainIdentChars(g.crateName));
    id
  }

  /** The prefix followed by identifier characters is a renderer identifier. */
  lemma PrefixedIsDotId(rest: string)
    requires forall c | c in rest :: IsIdentChar(c)
    ensures var id := CallGraphIdPrefix + rest;
      && id[..|CallGraphIdPrefix|] == CallGraphIdPrefix && id[|CallGraphIdPrefix|..] == rest
      && IsDotId(id)
  {
    var id := CallGraphIdPrefix + rest;
    assert id[0] == 'e';
    assert id[..|CallGraphIdPrefix|] == CallGraphIdPrefix;
    assert id[|CallGraphIdPrefix|..] == rest;
    forall c | c in id ensures IsIdentChar(c) {
      if c !in rest {
        assert c in CallGraphIdPrefix;
      }
    }
  }

  // ---------------------------------------------------------------------------
  // The chain graph

  datatype ChainNode = ChainNode(id: nat, name: string)
  datatype ChainEdge = ChainEdge(from: nat, to: nat, ty: Option<string>)
  datatype ChainGraph = ChainGraph(nodes: seq<ChainNode>, edges: seq<ChainEdge>, crateName: string)

  predicate ValidChain(cg: ChainGraph)
  {
    && (forall i | 0 <= i < |cg.nodes| :: cg.nodes[i].id == i)
    && (forall e | e in cg.edges :: e.from < |cg.nodes| && e.to < |cg.nodes|)
  }

  /** `cg2` was obtained from `cg1` by appending nodes and edges only. */
  predicate ChainExtends(cg1: ChainGraph, cg2: ChainGraph)
  {
    && |cg1.nodes| <= |cg2.nodes| && cg2.nodes[..|cg1.nodes|] == cg1.nodes
    && |cg1.edges| <= |cg2.edges| && cg2.edges[..|cg1.edges|] == cg1.edges
    && cg2.crateName == cg1.crateName
  }

  lemma ChainExtendsTransitive(a: ChainGraph, b: ChainGraph, c: ChainGraph)
    requires ChainExtends(a, b) && ChainExtends(b, c)
    ensures ChainExtends(a, c)
  {
    assert c.nodes[..|a.nodes|] == c.nodes[..|b.nodes|][..|a.nodes|];
    assert c.edges[..|a.edges|] == c.edges[..|b.edges|][..|a.edges|];
  }

  /** `ChainGraph::new`. */
  function NewChainGraph(crateName: string): (cg: ChainGraph)
    ensures ValidChain(cg) && |cg.nodes| == 0 && |cg.edges| == 0 && cg.crateName == crateName
  {
    ChainGraph([], [], crateName)
  }

  /** `ChainGraph::add_node`: appends a node whose id is the previous node count. */
  function AddChainNode(cg: ChainGraph, name: string): (r: (ChainGraph, nat))
    ensures r.1 == |cg.nodes| && |r.0.nodes| == |cg.nodes| + 1
    ensures r.0.nodes[..r.1] == cg.nodes && r.0.edges == cg.edges && r.0.crateName == cg.crateName
    ensures r.0.nodes[r.1].id == r.1 && r.0.nodes[r.1].name == name
    ensures ValidChain(cg) ==> ValidChain(r.0)
  {
    (cg.(nodes := cg.nodes + [ChainNode(|cg.nodes|, name)]), |cg.nodes|)
  }

  /** `ChainGraph::add_edge`: appends exactly one edge and leaves the nodes alone. */
  function AddChainEdge(cg: ChainGraph, from: nat, to: nat, ty: Option<string>): (r: ChainGraph)
    ensures r.nodes == cg.nodes && |r.edges| == |cg.edges| + 1 && r.crateName == cg.crateName
    ensures r.edges[..|cg.edges|] == cg.edges && r.edges[|cg.edges|] == ChainEdge(from, to, ty)
    ensures ValidChain(cg) && from < |cg.nodes| && to < |cg.nodes| ==> ValidChain(r)
  {
    cg.(edges := cg.edges + [ChainEdge(from, to, ty)])
  }

  /** `GraphWalk::source` of the call graph: the calling function. */
  function CallSource(g: CallGraph, e: CallEdge): (n: CallNode)
    requires e.from < |g.nodes|
    ensures Valid(g) ==> n.id == e.from
  {
    g.nodes[e.from]
  }

  /** `GraphWalk::target` of the call graph: the called function. */
  function CallTarget(g: CallGraph, e: CallEdge): (n: CallNode)
    requires e.to < |g.nodes|
    ensures Valid(g) ==> n.id == e.to
  {
    g.nodes[e.to]
  }

  /**
   * `GraphWalk::source` of the chain graph. Unlike the call graph, the chain graph is
   * rendered against the call direction: the source is the edge's `to` node.
   */
  function ChainSource(cg: ChainGraph, e: ChainEdge): (n: ChainNode)
    requires e.to < |cg.nodes|
    ensures ValidChain(cg) ==> n.id == e.to
  {
    cg.nodes[e.to]
  }

  /** `GraphWalk::target` of the chain graph: the edge's `from` node. */
  function ChainTarget(cg: ChainGraph, e: ChainEdge): (n: ChainNode)
    requires e.from < |cg.nodes|
    ensures ValidChain(cg) ==> n.id == e.from
  {
    cg.nodes[e.from]
  }

  /** `edge_label` of the chain graph. */
  function ChainEdgeLabel(e: ChainEdge): (s: string)
    ensures e.ty.Some? ==> s == e.ty.value
    ensures e.ty.None? ==> s == "unknown"
  {
    e.ty.GetOr("unknown")
  }

  /** `PartialEq for ChainNode`: the id alone decides. */
  predicate ChainNodeEq(a: ChainNode, b: ChainNode)
  {
    a.id == b.id
  }

  /** `PartialEq for ChainEdge`: same endpoints. */
  predicate ChainEdgeEq(a: ChainEdge, b: ChainEdge)
  {
    a.to == b.to && a.from == b.from
  }

  /** `graph_id` of the chain graph: as for the call graph, with `_chains` appended. */
  function ChainGraphId(cg: ChainGraph): (id: string)
    ensures |CallGraphIdPrefix| <= |id| && id[..|CallGraphIdPrefix|] == CallGraphIdPrefix
    ensures id[|CallGraphIdPrefix|..] == RetainIdentChars(cg.crateName) + ChainGraphIdSuffix
    ensures IsDotId(id)
  {
    var rest := RetainIdentChars(cg.crateName) + ChainGraphIdSuffix;
    assert forall c | c in rest :: IsIdentChar(c) by {
      forall c | c in rest ensures IsIdentChar(c) {
        if c !in RetainIdentChars(cg.crateName) {
          assert c in ChainGraphIdSuffix;
        }
      }
    }
    PrefixedIsDotId(rest);
    assert CallGraphIdPrefix + RetainIdentChars(cg.crateName) + ChainGraphIdSuffix == CallGraphIdPrefix + rest;
    CallGraphIdPrefix + rest
  }

  /** The endpoints of chain edges in visiting order. */
  function ChainEndpoints(edges: seq<ChainEdge>): (r: seq<nat>)
    ensures |r| == 2 * |edges|
    ensures forall k | 0 <= k < |edges| :: r[2 * k] == edges[k].from && r[2 * k + 1] == edges[k].to
  {
    if edges == [] then []
    else ChainEndpoints(edges[..|edges| - 1]) + [edges[|edges| - 1].from, edges[|edges| - 1].to]
  }

  /** `GraphWalk::nodes` for the chain graph, with the same walk as the call graph's. */
  method WalkChainNodes(cg: ChainGraph) returns (r: seq<ChainNode>)
    requires ValidChain(cg)
    ensures forall k | 0 <= k < |r| :: r[k].id < |cg.nodes| && r[k] == cg.nodes[r[k].id] && r[k].id in ChainEndpoints(cg.edges)
    ensures forall e | e in cg.edges :: cg.nodes[e.from] in r && cg.nodes[e.to] in r
    ensures forall i, j | 0 <= i < j < |r| :: !ChainNodeEq(r[i], r[j])
    ensures |r| == |FirstOccurrences(ChainEndpoints(cg.edges))|
    ensures forall k | 0 <= k < |r| :: r[k].id == FirstOccurrences(ChainEndpoints(cg.edges))[k]
  {
    var ends := ChainEndpoints(cg.edges);
    forall x | x in ends
      ensures x < |cg.nodes|
    {
      var p :| 0 <= p < |ends| && ends[p] == x;
      assert cg.edges[p / 2] in cg.edges;
    }
    r := DedupWalk(cg.nodes, ends, ChainNodeEq);
    var fo := FirstOccurrences(ends);
    forall e | e in cg.edges
      ensures cg.nodes[e.from] in r && cg.nodes[e.to] in r
    {
      var k :| 0 <= k < |cg.edges| && cg.edges[k] == e;
      assert ends[2 * k] == e.from && ends[2 * k + 1] == e.to;
      assert e.from in ends && e.to in ends;
      var a :| 0 <= a < |fo| && fo[a] == e.from;
      var b :| 0 <= b < |fo| && fo[b] == e.to;
      assert r[a] == cg.nodes[e.from] && r[b] == cg.nodes[e.to];
    }
  }
}
