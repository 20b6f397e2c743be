/**
 * Call-graph construction (`create_call_graph_from_root`, `add_calls_from_function`,
 * `add_calls_from_block`) for both revisions of the builder, which share the exploration
 * loop and differ only in the call-discovery walk, the function shapes they look through
 * and the node labels.
 *
 * Exploration is depth first: a call to a function seen for the first time adds its node
 * and, when the function is local, walks its body at once, before the next call of the
 * current body is handled. A function seen before only gains an edge. This is what makes
 * the recursion terminate: every nested walk is for a local function whose HIR id had no
 * node yet, and there are finitely many HIR ids.
 */
module Builder {
  import opened Wrappers
  import opened Ids
  import opened Graph
  import opened Hir
  import opened CallWalk
  import EarlyAnalysis

  /** The two builder revisions: `analysis/create_graph.rs` and the earlier `analysis.rs`. */
  datatype Revision = Current | Earlier

  // ---------------------------------------------------------------------------------------
  // Which block is a function's body, and which calls it makes.
  // ---------------------------------------------------------------------------------------

  /** The body block behind a body expression; the current revision also looks through closures. */
  function BodyBlockOfExpr(rev: Revision, e: Expr): Option<Block>
    decreases e
  {
    match e.kind
    case BlockExpr(b) => Some(b)
    case Closure(_, body) => if rev == Current then BodyBlockOfExpr(rev, body) else None
    case _ => None
  }

  /** `add_calls_from_function`: the block found behind a HIR node, if any. */
  function BodyBlock(rev: Revision, n: HirNode): Option<Block>
  {
    match n
    case ExprNode(e) => BodyBlockOfExpr(rev, e)
    case BlockNode(b) => Some(b)
    case ItemNode(item) => if item.kind.FnItem? then BodyBlockOfExpr(rev, item.kind.body) else None
    case ImplItemNode(k) => if rev == Current && k.ImplFn? then BodyBlockOfExpr(rev, k.body) else None
    case OtherNode => None
  }

  /** The calls found in a body block, in the current revision's terms. */
  function BlockCalls(ctx: Ctx, rev: Revision, b: Block): seq<FoundCall>
  {
    match rev
    case Current => CallsInBlock(ctx, b, true)
    case Earlier =>
      var ds := EarlyAnalysis.CallsInBlock(ctx, b);
      seq(|ds|, k requires 0 <= k < |ds| => FoundCall(ds[k].kind, ds[k].callId, true, false))
  }

  function ExprBodyCalls(ctx: Ctx, rev: Revision, e: Expr): seq<FoundCall>
  {
    match BodyBlockOfExpr(rev, e)
    case Some(b) => BlockCalls(ctx, rev, b)
    case None => []
  }

  /** The calls made by the function a node stands for; an external function has none. */
  function KindCalls(ctx: Ctx, rev: Revision, k: NodeKind): seq<FoundCall>
  {
    if k.LocalFn? && k.hir in ctx.hir then
      match BodyBlock(rev, ctx.hir[k.hir])
      case Some(b) => BlockCalls(ctx, rev, b)
      case None => []
    else []
  }

  /** A node's label: `def_path_str` now, crate name plus def path in the earlier revision. */
  function Label(ctx: Ctx, rev: Revision, d: DefId): string
  {
    if rev == Current then ctx.defPathStr(d) else ctx.pathString(d)
  }

  // ---------------------------------------------------------------------------------------
  // Node identity.
  // ---------------------------------------------------------------------------------------

  /** Two node kinds stand for the same function: same HIR id if local, same `DefId` if not. */
  predicate SameFn(a: NodeKind, b: NodeKind)
  {
    || (a.LocalFn? && b.LocalFn? && a.hir == b.hir)
    || (a.NonLocalFn? && b.NonLocalFn? && a.def == b.def)
  }

  /** No function has two nodes. */
  predicate Unique(g: CallGraph)
  {
    forall i, j | 0 <= i < j < |g.nodes| :: !SameFn(g.nodes[i].kind, g.nodes[j].kind)
  }

  predicate NoPanics(g: CallGraph)
  {
    forall i | 0 <= i < |g.nodes| :: !g.nodes[i].panics
  }

  predicate HasNodeFor(g: CallGraph, k: NodeKind)
  {
    exists i | 0 <= i < |g.nodes| :: SameFn(g.nodes[i].kind, k)
  }

  /** The lookup `add_calls_from_block` does before adding a node. */
  function FindNode(g: CallGraph, k: NodeKind): (r: Option<CallNode>)
    requires Valid(g)
    ensures r.None? <==> !HasNodeFor(g, k)
    ensures r.Some? ==> r.value.id < |g.nodes| && g.nodes[r.value.id] == r.value && SameFn(r.value.kind, k)
  {
    match k
    case LocalFn(_, h) =>
      var r := FindLocalFnNode(g, h);
      assert r.None? ==> forall i | 0 <= i < |g.nodes| :: !SameFn(g.nodes[i].kind, k) by {
        if r.None? {
          forall i | 0 <= i < |g.nodes| ensures !SameFn(g.nodes[i].kind, k) {
            assert !IsLocalFnWith(g.nodes[i], h);
          }
        }
      }
      r
    case NonLocalFn(d) =>
      var r := FindNonLocalFnNode(g, d);
      assert r.None? ==> forall i | 0 <= i < |g.nodes| :: !SameFn(g.nodes[i].kind, k) by {
        if r.None? {
          forall i | 0 <= i < |g.nodes| ensures !SameFn(g.nodes[i].kind, k) {
            assert !IsNonLocalFnWith(g.nodes[i], d);
          }
        }
      }
      r
  }

  /**
   * What the exploration loop needs to know about the crate: the HIR ids that have an entry,
   * the calls of the function each node kind stands for, and how nodes are labelled.
   */
  datatype Env = Env(known: set<HirId>, calls: NodeKind -> seq<FoundCall>, nameOf: DefId -> string)

  function EnvOf(ctx: Ctx, rev: Revision): (env: Env)
    ensures EnvOk(env)
  {
    Env(ctx.hir.Keys, k => KindCalls(ctx, rev, k), d => Label(ctx, rev, d))
  }

  /** Only local functions with a HIR entry have calls of their own. */
  ghost predicate EnvOk(env: Env)
  {
    forall k: NodeKind | !(k.LocalFn? && k.hir in env.known) :: env.calls(k) == []
  }

  /** The HIR ids that already have a node. */
  function LocalHirs(g: CallGraph): set<HirId>
  {
    set i | 0 <= i < |g.nodes| && g.nodes[i].kind.LocalFn? :: g.nodes[i].kind.hir
  }

  /** The termination measure: HIR ids with an entry that have no node yet. */
  function Unexplored(env: Env, g: CallGraph): nat
  {
    |env.known - LocalHirs(g)|
  }

  lemma {:induction false} SubsetCardinality<T>(a: set<T>, b: set<T>)
    requires a <= b
    ensures |a| <= |b|
    decreases a
  {
    if a != {} {
      var x :| x in a;
      SubsetCardinality(a - {x}, b - {x});
    }
  }

  lemma UnexploredMonotone(env: Env, g1: CallGraph, g2: CallGraph)
    requires Extends(g1, g2)
    ensures LocalHirs(g1) <= LocalHirs(g2)
    ensures Unexplored(env, g2) <= Unexplored(env, g1)
  {
    forall h | h in LocalHirs(g1) ensures h in LocalHirs(g2) {
      var i :| 0 <= i < |g1.nodes| && g1.nodes[i].kind.LocalFn? && g1.nodes[i].kind.hir == h;
      assert g2.nodes[i] == g2.nodes[..|g1.nodes|][i];
    }
    SubsetCardinality(env.known - LocalHirs(g2), env.known - LocalHirs(g1));
  }

  /** Adding a node for an unexplored local function with a HIR entry strictly shrinks the measure. */
  lemma UnexploredShrinks(env: Env, g1: CallGraph, g2: CallGraph, h: HirId)
    requires Extends(g1, g2) && |g2.nodes| == |g1.nodes| + 1
    requires g2.nodes[|g1.nodes|].kind.LocalFn? && g2.nodes[|g1.nodes|].kind.hir == h
    requires h in env.known && h !in LocalHirs(g1)
    ensures Unexplored(env, g2) < Unexplored(env, g1)
  {
    UnexploredMonotone(env, g1, g2);
    assert h in LocalHirs(g2);
    var a := env.known - LocalHirs(g1);
    var b := env.known - LocalHirs(g2);
    SubsetCardinality(b, a - {h});
    assert |a - {h}| == |a| - 1;
  }

  // ---------------------------------------------------------------------------------------
  // One iteration of `add_calls_from_block`, and the exploration loop.
  // ---------------------------------------------------------------------------------------

  datatype Inserted = Inserted(graph: CallGraph, target: nat, isNew: bool)

  /**
   * One call of the loop in `add_calls_from_block`, before any exploration: find the callee's
   * node or append a new one, then add an edge from the caller when the call asks for one.
   */
  function InsertCall(env: Env, from: nat, c: FoundCall, g: CallGraph): (r: Inserted)
    requires Valid(g) && Unique(g) && from < |g.nodes|
    ensures Inserts(env, from, c, g, r)
    ensures NoPanics(g) ==> NoPanics(r.graph)
  {
    match FindNode(g, c.kind)
    case Some(n) =>
      var g1 := if c.addEdge then AddEdge(g, NewEdge(from, n.id, c.callId, c.propagates)) else g;
      Inserted(g1, n.id, false)
    case None =>
      var (g1, id) := AddNode(g, env.nameOf(c.kind.def), c.kind);
      NewNodeUnique(g, env.nameOf(c.kind.def), c.kind);
      var g2 := if c.addEdge then AddEdge(g1, NewEdge(from, id, c.callId, c.propagates)) else g1;
      Inserted(g2, id, true)
  }

  /**
   * `ins` is the result of one call's insertion into `g`: the graph stays valid and free of
   * duplicates, the target is the callee's node, a node is appended exactly when the callee
   * had none, and an edge from the caller is appended exactly when the call asks for one.
   */
  predicate Inserts(env: Env, from: nat, c: FoundCall, g: CallGraph, ins: Inserted)
  {
    && Valid(ins.graph) && Unique(ins.graph) && Extends(g, ins.graph)
    && ins.target < |ins.graph.nodes| && SameFn(ins.graph.nodes[ins.target].kind, c.kind)
    && (ins.isNew <==> !HasNodeFor(g, c.kind))
    && (ins.isNew ==>
         ins.target == |g.nodes| && ins.graph.nodes == g.nodes + [CallNode(ins.target, env.nameOf(c.kind.def), c.kind, false)])
    && (!ins.isNew ==> ins.graph.nodes == g.nodes)
    && ins.graph.edges == g.edges + (if c.addEdge then [NewEdge(from, ins.target, c.callId, c.propagates)] else [])
  }

  /** A node for a function that has none keeps the graph free of duplicates. */
  lemma NewNodeUnique(g: CallGraph, name: string, k: NodeKind)
    requires Unique(g) && !HasNodeFor(g, k)
    ensures Unique(AddNode(g, name, k).0)
  {
    var g1 := AddNode(g, name, k).0;
    forall i | 0 <= i < |g.nodes| ensures g1.nodes[i] == g.nodes[i] {
      assert g1.nodes[i] == g1.nodes[..|g.nodes|][i];
    }
  }

  /** Whether the loop walks the callee's body right after adding its node. */
  predicate Explores(env: Env, c: FoundCall, ins: Inserted)
  {
    ins.isNew && c.kind.LocalFn? && c.kind.hir in env.known
  }

  /**
   * The loop of `add_calls_from_block` over the calls of one body, with the depth-first walk
   * of every newly found local function (`add_calls_from_function`) folded in.
   */
  function AddCalls(env: Env, from: nat, calls: seq<FoundCall>, g: CallGraph): (r: CallGraph)
    requires Valid(g) && Unique(g) && from < |g.nodes|
    ensures Valid(r) && Unique(r) && Extends(g, r)
    ensures NoPanics(g) ==> NoPanics(r)
    decreases Unexplored(env, g), |calls|, 1
  {
    if calls == [] then g
    else
      var g1 := AddCall(env, from, calls[0], g);
      UnexploredMonotone(env, g, g1);
      var r := AddCalls(env, from, calls[1..], g1);
      ExtendsTransitive(g, g1, r);
      r
  }

  /** One iteration: insert the call, then walk the callee's body if it is a newly found local function. */
  function AddCall(env: Env, from: nat, c: FoundCall, g: CallGraph): (r: CallGraph)
    requires Valid(g) && Unique(g) && from < |g.nodes|
    ensures Valid(r) && Unique(r) && Extends(g, r)
    ensures NoPanics(g) ==> NoPanics(r)
    decreases Unexplored(env, g), 0, 0
  {
    var ins := InsertCall(env, from, c, g);
    if Explores(env, c, ins) then
      UnexploredShrinks(env, g, ins.graph, c.kind.hir);
      var walked := AddCalls(env, ins.target, env.calls(c.kind), ins.graph);
      ExtendsTransitive(g, ins.graph, walked);
      walked
    else ins.graph
  }

  /** `create_call_graph_from_root`: a function item becomes node 0 and is explored from there. */
  function CreateCallGraphFromRoot(ctx: Ctx, rev: Revision, item: Item): (g: CallGraph)
    ensures Valid(g) && Unique(g) && NoPanics(g)
    ensures g.crateName == (if rev == Current then ctx.crateName else "")
    ensures !item.kind.FnItem? ==> g.nodes == [] && g.edges == []
    ensures item.kind.FnItem? ==>
      |g.nodes| >= 1 && g.nodes[0] == CallNode(0, Label(ctx, rev, item.def), LocalFn(item.def, item.id), false)
  {
    var crateName := if rev == Current then ctx.crateName else "";
    if item.kind.FnItem? then ExploreRoot(ctx, rev, crateName, item) else NewGraph(crateName)
  }

  /** A function item becomes the root node, and its body's calls are explored from it. */
  function ExploreRoot(ctx: Ctx, rev: Revision, crateName: string, item: Item): (g: CallGraph)
    requires item.kind.FnItem?
    ensures Valid(g) && Unique(g) && NoPanics(g) && g.crateName == crateName
    ensures |g.nodes| >= 1 && g.nodes[0] == CallNode(0, Label(ctx, rev, item.def), LocalFn(item.def, item.id), false)
  {
    var g1 := RootGraph(crateName, Label(ctx, rev, item.def), LocalFn(item.def, item.id));
    var r := AddCalls(EnvOf(ctx, rev), 0, ExprBodyCalls(ctx, rev, item.kind.body), g1);
    assert r.nodes[0] == r.nodes[..1][0];
    r
  }

  /** The graph exploration starts from: the root node alone. */
  function RootGraph(crateName: string, name: string, kind: NodeKind): (g: CallGraph)
    ensures Valid(g) && Unique(g) && NoPanics(g) && g.crateName == crateName
    ensures g.nodes == [CallNode(0, name, kind, false)] && g.edges == []
  {
    CallGraph([CallNode(0, name, kind, false)], [], crateName)
  }

  // ---------------------------------------------------------------------------------------
  // What the finished graph says about the calls.
  // ---------------------------------------------------------------------------------------

  /** Every callee in `calls` has a node. */
  predicate Covers(g: CallGraph, calls: seq<FoundCall>)
  {
    forall c | c in calls :: HasNodeFor(g, c.kind)
  }

  /** The edge-producing calls, in order. */
  function EdgeCalls(calls: seq<FoundCall>): (r: seq<FoundCall>)
    ensures forall c | c in r :: c in calls && c.addEdge
    ensures forall c | c in calls && c.addEdge :: c in r
  {
    if calls == [] then []
    else (if calls[0].addEdge then [calls[0]] else []) + EdgeCalls(calls[1..])
  }

  /**
   * `es` are the edges for `cs`, one for one and in order: same call id, same propagation,
   * not yet annotated, and pointing at the node of the callee.
   */
  predicate Realizes(g: CallGraph, es: seq<CallEdge>, cs: seq<FoundCall>)
  {
    |es| == |cs| &&
    forall k | 0 <= k < |es| ::
      && es[k].callId == cs[k].callId && es[k].propagates == cs[k].propagates
      && es[k].ty.None? && !es[k].isError
      && es[k].to < |g.nodes| && SameFn(g.nodes[es[k].to].kind, cs[k].kind)
  }

  /** Node `i` has been explored: its callees have nodes and its outgoing edges are exactly its calls' edges. */
  predicate Expanded(env: Env, g: CallGraph, i: nat)
    requires i < |g.nodes|
  {
    var calls := env.calls(g.nodes[i].kind);
    Covers(g, calls) && Realizes(g, GetOutgoingEdges(g.edges, i), EdgeCalls(calls))
  }

  lemma HasNodeForStable(g1: CallGraph, g2: CallGraph, k: NodeKind)
    requires Extends(g1, g2) && HasNodeFor(g1, k)
    ensures HasNodeFor(g2, k)
  {
    var i :| 0 <= i < |g1.nodes| && SameFn(g1.nodes[i].kind, k);
    assert g2.nodes[i] == g2.nodes[..|g1.nodes|][i];
  }

  lemma CoversStable(g1: CallGraph, g2: CallGraph, calls: seq<FoundCall>)
    requires Extends(g1, g2) && Covers(g1, calls)
    ensures Covers(g2, calls)
  {
    forall c | c in calls ensures HasNodeFor(g2, c.kind) {
      HasNodeForStable(g1, g2, c.kind);
    }
  }

  lemma RealizesStable(g1: CallGraph, g2: CallGraph, es: seq<CallEdge>, cs: seq<FoundCall>)
    requires Extends(g1, g2) && Realizes(g1, es, cs)
    ensures Realizes(g2, es, cs)
  {
    forall k | 0 <= k < |es| ensures g2.nodes[es[k].to] == g1.nodes[es[k].to] {
      assert g2.nodes[es[k].to] == g2.nodes[..|g1.nodes|][es[k].to];
    }
  }

  lemma RealizesAppend(g: CallGraph, es1: seq<CallEdge>, cs1: seq<FoundCall>, es2: seq<CallEdge>, cs2: seq<FoundCall>)
    requires Realizes(g, es1, cs1) && Realizes(g, es2, cs2)
    ensures Realizes(g, es1 + es2, cs1 + cs2)
  {
    forall k | |es1| <= k < |es1| + |es2|
      ensures (es1 + es2)[k] == es2[k - |es1|] && (cs1 + cs2)[k] == cs2[k - |es1|]
    {
    }
  }

  lemma {:induction false} OutgoingNone(es: seq<CallEdge>, n: nat)
    requires forall e | e in es :: e.from != n
    ensures GetOutgoingEdges(es, n) == []
    decreases es
  {
    if es != [] {
      OutgoingNone(es[1..], n);
    }
  }

  /** Outgoing edges of a node that only the older edges can leave are unchanged by appending. */
  lemma OutgoingUnchanged(es: seq<CallEdge>, more: seq<CallEdge>, n: nat)
    requires forall e | e in more :: e.from != n
    ensures GetOutgoingEdges(es + more, n) == GetOutgoingEdges(es, n)
  {
    OutgoingEdgesAppend(es, more, n);
    OutgoingNone(more, n);
  }

  lemma ExpandedStable(env: Env, g1: CallGraph, g2: CallGraph, i: nat)
    requires Extends(g1, g2) && i < |g1.nodes| && Expanded(env, g1, i)
    requires forall e | e in g2.edges[|g1.edges|..] :: e.from != i
    ensures Expanded(env, g2, i)
  {
    assert g2.nodes[i] == g2.nodes[..|g1.nodes|][i];
    var calls := env.calls(g1.nodes[i].kind);
    CoversStable(g1, g2, calls);
    assert g2.edges == g1.edges + g2.edges[|g1.edges|..];
    OutgoingUnchanged(g1.edges, g2.edges[|g1.edges|..], i);
    RealizesStable(g1, g2, GetOutgoingEdges(g1.edges, i), EdgeCalls(calls));
  }

  /** The edges a loop adds leave the caller or a node the loop itself created. */
  predicate NewEdgesFrom(g: CallGraph, r: CallGraph, from: nat)
    requires Extends(g, r)
  {
    forall e | e in r.edges[|g.edges|..] :: e.from == from || e.from >= |g.nodes|
  }

  /**
   * Completeness of one run of the exploration loop from `g` to `r` for the calls of the body
   * of node `from`: every callee has a node, the edges added from the caller are exactly the
   * edges of its edge-producing calls in order, the other added edges leave new nodes, and
   * every new node is fully explored.
   */
  predicate LoopDone(env: Env, from: nat, calls: seq<FoundCall>, g: CallGraph, r: CallGraph)
  {
    && Extends(g, r)
    && NewEdgesFrom(g, r, from)
    && Covers(r, calls)
    && CallerEdges(from, calls, g, r)
    && AllExpanded(env, g, r)
  }

  /** The edges added from the caller are exactly the edges of its edge-producing calls, in order. */
  predicate CallerEdges(from: nat, calls: seq<FoundCall>, g: CallGraph, r: CallGraph)
    requires |g.edges| <= |r.edges|
  {
    Realizes(r, GetOutgoingEdges(r.edges[|g.edges|..], from), EdgeCalls(calls))
  }

  /** Every node added between `g` and `r` is explored in `r`. */
  predicate AllExpanded(env: Env, g: CallGraph, r: CallGraph)
  {
    forall i | |g.nodes| <= i < |r.nodes| :: Expanded(env, r, i)
  }

  lemma {:induction false} EdgeCallsAppend(a: seq<FoundCall>, b: seq<FoundCall>)
    ensures EdgeCalls(a + b) == EdgeCalls(a) + EdgeCalls(b)
    decreases a
  {
    if a == [] {
      assert a + b == b;
    } else {
      var head := if a[0].addEdge then [a[0]] else [];
      assert (a + b)[0] == a[0];
      assert (a + b)[1..] == a[1..] + b;
      EdgeCallsAppend(a[1..], b);
      calc {
        EdgeCalls(a + b);
        head + EdgeCalls(a[1..] + b);
        head + (EdgeCalls(a[1..]) + EdgeCalls(b));
        (head + EdgeCalls(a[1..])) + EdgeCalls(b);
        EdgeCalls(a) + EdgeCalls(b);
      }
    }
  }

  /** Two runs of the loop back to back are one run over the concatenated calls. */
  lemma LoopDoneCompose(env: Env, from: nat, cs1: seq<FoundCall>, cs2: seq<FoundCall>, g: CallGraph, g1: CallGraph, r: CallGraph)
    requires from < |g.nodes|
    requires LoopDone(env, from, cs1, g, g1) && LoopDone(env, from, cs2, g1, r)
    ensures LoopDone(env, from, cs1 + cs2, g, r)
  {
    ExtendsTransitive(g, g1, r);
    var a := g1.edges[|g.edges|..];
    var b := r.edges[|g1.edges|..];
    EdgesSplit(g, g1, r);
    CoversStable(g1, r, cs1);
    ComposeCallerEdges(from, cs1, cs2, g, g1, r);
    ComposeExpanded(env, from, g, g1, r);
  }

  lemma EdgesSplit(g: CallGraph, g1: CallGraph, r: CallGraph)
    requires Extends(g, g1) && Extends(g1, r)
    ensures |g.edges| <= |r.edges|
    ensures r.edges[|g.edges|..] == g1.edges[|g.edges|..] + r.edges[|g1.edges|..]
  {
    assert r.edges == g1.edges + r.edges[|g1.edges|..];
    assert g1.edges == g.edges + g1.edges[|g.edges|..];
  }

  lemma ComposeCallerEdges(from: nat, cs1: seq<FoundCall>, cs2: seq<FoundCall>, g: CallGraph, g1: CallGraph, r: CallGraph)
    requires Extends(g, g1) && Extends(g1, r)
    requires CallerEdges(from, cs1, g, g1) && CallerEdges(from, cs2, g1, r)
    ensures |g.edges| <= |r.edges| && CallerEdges(from, cs1 + cs2, g, r)
  {
    var a := g1.edges[|g.edges|..];
    var b := r.edges[|g1.edges|..];
    EdgesSplit(g, g1, r);
    OutgoingEdgesAppend(a, b, from);
    RealizesStable(g1, r, GetOutgoingEdges(a, from), EdgeCalls(cs1));
    RealizesAppend(r, GetOutgoingEdges(a, from), EdgeCalls(cs1), GetOutgoingEdges(b, from), EdgeCalls(cs2));
    EdgeCallsAppend(cs1, cs2);
  }

  lemma ComposeExpanded(env: Env, from: nat, g: CallGraph, g1: CallGraph, r: CallGraph)
    requires from < |g.nodes|
    requires Extends(g, g1) && Extends(g1, r)
    requires NewEdgesFrom(g1, r, from)
    requires AllExpanded(env, g, g1) && AllExpanded(env, g1, r)
    ensures AllExpanded(env, g, r)
  {
    forall i | |g.nodes| <= i < |r.nodes| ensures Expanded(env, r, i) {
      if i < |g1.nodes| {
        ExpandedStable(env, g1, r, i);
      }
    }
  }

  /** The edge a call adds, if any, leaves the caller and realizes the call. */
  lemma CallerEdge(env: Env, from: nat, c: FoundCall, g: CallGraph, ins: Inserted)
    requires Valid(g) && Unique(g) && from < |g.nodes|
    requires Inserts(env, from, c, g, ins)
    ensures Extends(g, ins.graph)
    ensures forall e | e in ins.graph.edges[|g.edges|..] :: e.from == from
    ensures Realizes(ins.graph, GetOutgoingEdges(ins.graph.edges[|g.edges|..], from), EdgeCalls([c]))
    ensures HasNodeFor(ins.graph, c.kind)
  {
    var d := ins.graph.edges[|g.edges|..];
    assert d == (if c.addEdge then [NewEdge(from, ins.target, c.callId, c.propagates)] else []);
    if c.addEdge {
      OutgoingEdgesSingleton(NewEdge(from, ins.target, c.callId, c.propagates), from);
    }
    assert EdgeCalls([c]) == (if c.addEdge then [c] else []) by {
      assert [c][1..] == [];
    }
  }

  /** No edge leaves the node a call has just created. */
  lemma NoEdgesFromNewNode(env: Env, from: nat, c: FoundCall, g: CallGraph, ins: Inserted)
    requires Valid(g) && Unique(g) && from < |g.nodes|
    requires Inserts(env, from, c, g, ins) && ins.isNew
    ensures GetOutgoingEdges(ins.graph.edges, ins.target) == []
  {
    CallerEdge(env, from, c, g, ins);
    var older := ins.graph.edges;
    assert older == g.edges + older[|g.edges|..];
    forall e | e in older ensures e.from != ins.target {
      if e !in g.edges {
        assert e in older[|g.edges|..];
      }
    }
    OutgoingNone(older, ins.target);
  }

  /** A call whose callee is not walked completes its iteration on insertion alone. */
  lemma UnexploredCallDone(env: Env, from: nat, c: FoundCall, g: CallGraph, ins: Inserted)
    requires EnvOk(env)
    requires Valid(g) && Unique(g) && from < |g.nodes|
    requires Inserts(env, from, c, g, ins) && !Explores(env, c, ins)
    ensures LoopDone(env, from, [c], g, ins.graph)
  {
    CallerEdge(env, from, c, g, ins);
    if ins.isNew {
      var t := ins.target;
      assert ins.graph.nodes[t].kind == c.kind;
      assert env.calls(c.kind) == [];
      NoEdgesFromNewNode(env, from, c, g, ins);
      assert Expanded(env, ins.graph, t);
    }
  }

  /** A call that walks a newly found function completes once that walk is complete. */
  lemma ExploredCallDone(env: Env, from: nat, c: FoundCall, g: CallGraph, g0: CallGraph, r: CallGraph)
    requires from < |g.nodes| && Extends(g, g0) && |g0.nodes| == |g.nodes| + 1
    requires g0.nodes[|g.nodes|].kind == c.kind
    requires forall e | e in g0.edges[|g.edges|..] :: e.from == from
    requires CallerEdges(from, [c], g, g0) && HasNodeFor(g0, c.kind)
    requires GetOutgoingEdges(g0.edges, |g.nodes|) == []
    requires LoopDone(env, |g.nodes|, env.calls(c.kind), g0, r)
    ensures LoopDone(env, from, [c], g, r)
  {
    ExploredNewEdges(from, g, g0, r);
    ExploredCallerEdges(from, c, g, g0, r);
    HasNodeForStable(g0, r, c.kind);
    ExploredAllExpanded(env, c.kind, g, g0, r);
  }

  /** The walk of the callee adds no edge leaving the caller, and leaves the caller's edges in place. */
  lemma ExploredNewEdges(from: nat, g: CallGraph, g0: CallGraph, r: CallGraph)
    requires from < |g.nodes| && Extends(g, g0) && Extends(g0, r) && |g0.nodes| == |g.nodes| + 1
    requires forall e | e in g0.edges[|g.edges|..] :: e.from == from
    requires NewEdgesFrom(g0, r, |g.nodes|)
    ensures Extends(g, r) && NewEdgesFrom(g, r, from)
    ensures forall e | e in r.edges[|g0.edges|..] :: e.from != from
  {
    ExtendsTransitive(g, g0, r);
    EdgesSplit(g, g0, r);
  }

  lemma ExploredCallerEdges(from: nat, c: FoundCall, g: CallGraph, g0: CallGraph, r: CallGraph)
    requires Extends(g, g0) && Extends(g0, r)
    requires forall e | e in r.edges[|g0.edges|..] :: e.from != from
    requires CallerEdges(from, [c], g, g0)
    ensures |g.edges| <= |r.edges| && CallerEdges(from, [c], g, r)
  {
    var d := g0.edges[|g.edges|..];
    var x := r.edges[|g0.edges|..];
    EdgesSplit(g, g0, r);
    OutgoingEdgesAppend(d, x, from);
    OutgoingNone(x, from);
    RealizesStable(g0, r, GetOutgoingEdges(d, from), EdgeCalls([c]));
  }

  lemma ExploredAllExpanded(env: Env, k: NodeKind, g: CallGraph, g0: CallGraph, r: CallGraph)
    requires Extends(g0, r) && |g0.nodes| == |g.nodes| + 1 && g0.nodes[|g.nodes|].kind == k
    requires GetOutgoingEdges(g0.edges, |g.nodes|) == []
    requires Covers(r, env.calls(k)) && CallerEdges(|g.nodes|, env.calls(k), g0, r)
    requires AllExpanded(env, g0, r)
    ensures AllExpanded(env, g, r)
  {
    ExpandedNewNode(env, k, |g.nodes|, g0, r);
    forall i | |g.nodes| <= i < |r.nodes| ensures Expanded(env, r, i) {
      if i != |g.nodes| {
        assert |g0.nodes| <= i;
      }
    }
  }

  /** The node of a walked function is explored once its walk is complete. */
  lemma ExpandedNewNode(env: Env, k: NodeKind, t: nat, g0: CallGraph, r: CallGraph)
    requires t < |g0.nodes| && g0.nodes[t].kind == k && Extends(g0, r)
    requires GetOutgoingEdges(g0.edges, t) == []
    requires Covers(r, env.calls(k)) && CallerEdges(t, env.calls(k), g0, r)
    ensures t < |r.nodes| && Expanded(env, r, t)
  {
    assert r.nodes[t] == r.nodes[..|g0.nodes|][t];
    assert r.edges == g0.edges + r.edges[|g0.edges|..];
    OutgoingEdgesAppend(g0.edges, r.edges[|g0.edges|..], t);
    var es := GetOutgoingEdges(r.edges, t);
    assert es == GetOutgoingEdges(r.edges[|g0.edges|..], t);
    assert Realizes(r, es, EdgeCalls(env.calls(k)));
  }

  /** One iteration of the loop is complete for its call. */
  lemma {:induction false} AddCallComplete(env: Env, from: nat, c: FoundCall, g: CallGraph)
    requires EnvOk(env)
    requires Valid(g) && Unique(g) && from < |g.nodes|
    ensures LoopDone(env, from, [c], g, AddCall(env, from, c, g))
    decreases Unexplored(env, g), 0, 0
  {
    var ins := InsertCall(env, from, c, g);
    if Explores(env, c, ins) {
      UnexploredShrinks(env, g, ins.graph, c.kind.hir);
      AddCallsComplete(env, ins.target, env.calls(c.kind), ins.graph);
      CallerEdge(env, from, c, g, ins);
      NoEdgesFromNewNode(env, from, c, g, ins);
      ExploredCallDone(env, from, c, g, ins.graph, AddCalls(env, ins.target, env.calls(c.kind), ins.graph));
    } else {
      UnexploredCallDone(env, from, c, g, ins);
    }
  }

  lemma LoopDoneEmpty(env: Env, from: nat, g: CallGraph)
    ensures LoopDone(env, from, [], g, g)
  {
    assert g.nodes[..|g.nodes|] == g.nodes;
    assert g.edges[..|g.edges|] == g.edges;
    assert g.edges[|g.edges|..] == [];
    assert EdgeCalls([]) == [];
  }

  /** The whole loop is complete: the iterations compose. */
  lemma {:induction false} AddCallsComplete(env: Env, from: nat, calls: seq<FoundCall>, g: CallGraph)
    requires EnvOk(env)
    requires Valid(g) && Unique(g) && from < |g.nodes|
    ensures LoopDone(env, from, calls, g, AddCalls(env, from, calls, g))
    decreases Unexplored(env, g), |calls|, 1
  {
    if calls == [] {
      LoopDoneEmpty(env, from, g);
    } else {
      var g1 := AddCall(env, from, calls[0], g);
      AddCallComplete(env, from, calls[0], g);
      UnexploredMonotone(env, g, g1);
      var r := AddCalls(env, from, calls[1..], g1);
      AddCallsComplete(env, from, calls[1..], g1);
      LoopDoneCompose(env, from, [calls[0]], calls[1..], g, g1, r);
      assert [calls[0]] + calls[1..] == calls;
    }
  }

  /**
   * The finished call graph: the root's outgoing edges are exactly the edges of its body's
   * calls, every callee has a node, and every other node is explored in the same sense.
   */
  lemma CallGraphComplete(ctx: Ctx, rev: Revision, item: Item)
    requires item.kind.FnItem?
    ensures var g := CreateCallGraphFromRoot(ctx, rev, item);
      var calls := ExprBodyCalls(ctx, rev, item.kind.body);
      && Covers(g, calls)
      && Realizes(g, GetOutgoingEdges(g.edges, 0), EdgeCalls(calls))
      && forall i | 1 <= i < |g.nodes| :: Expanded(EnvOf(ctx, rev), g, i)
  {
    var g0 := NewGraph(if rev == Current then ctx.crateName else "");
    var (g1, root) := AddNode(g0, Label(ctx, rev, item.def), LocalFn(item.def, item.id));
    var calls := ExprBodyCalls(ctx, rev, item.kind.body);
    AddCallsComplete(EnvOf(ctx, rev), root, calls, g1);
    var r := AddCalls(EnvOf(ctx, rev), root, calls, g1);
    assert r.edges[|g1.edges|..] == r.edges;
  }

  // ---------------------------------------------------------------------------------------
  // The earlier revision, compared with the current one.
  // ---------------------------------------------------------------------------------------

  /** The current revision resolves every path the earlier one resolves, to the same node kind. */
  lemma PathResolutionWidened(ctx: Ctx, qp: QPath)
    ensures EarlyAnalysis.NodeKindFromPath(ctx, qp).Some? ==>
      && NodeKindFromPath(ctx, qp).Some?
      && NodeKindFromPath(ctx, qp).value.0 == EarlyAnalysis.NodeKindFromPath(ctx, qp).value
  {
  }

  predicate NoPropagatingEdges(g: CallGraph)
  {
    forall e | e in g.edges :: !e.propagates
  }

  /** The earlier walk never flags a call as propagating. */
  lemma EarlierCallsNeverPropagate(ctx: Ctx, k: NodeKind)
    ensures NonePropagate(KindCalls(ctx, Earlier, k))
  {
    if k.LocalFn? && k.hir in ctx.hir {
      match BodyBlock(Earlier, ctx.hir[k.hir])
      case Some(b) =>
        var cs := BlockCalls(ctx, Earlier, b);
        forall c | c in cs ensures !c.propagates {
          var j :| 0 <= j < |cs| && cs[j] == c;
        }
      case None =>
    }
  }

  lemma {:induction false} AddCallsNoPropagation(env: Env, from: nat, calls: seq<FoundCall>, g: CallGraph)
    requires forall k: NodeKind :: NonePropagate(env.calls(k))
    requires Valid(g) && Unique(g) && from < |g.nodes|
    requires NonePropagate(calls) && NoPropagatingEdges(g)
    ensures NoPropagatingEdges(AddCalls(env, from, calls, g))
    decreases Unexplored(env, g), |calls|, 1
  {
    if calls != [] {
      var g1 := AddCall(env, from, calls[0], g);
      assert calls[0] in calls;
      AddCallNoPropagation(env, from, calls[0], g);
      UnexploredMonotone(env, g, g1);
      assert forall c | c in calls[1..] :: c in calls;
      AddCallsNoPropagation(env, from, calls[1..], g1);
    }
  }

  lemma {:induction false} AddCallNoPropagation(env: Env, from: nat, c: FoundCall, g: CallGraph)
    requires forall k: NodeKind :: NonePropagate(env.calls(k))
    requires Valid(g) && Unique(g) && from < |g.nodes|
    requires !c.propagates && NoPropagatingEdges(g)
    ensures NoPropagatingEdges(AddCall(env, from, c, g))
    decreases Unexplored(env, g), 0, 0
  {
    var ins := InsertCall(env, from, c, g);
    assert NoPropagatingEdges(ins.graph);
    if Explores(env, c, ins) {
      UnexploredShrinks(env, g, ins.graph, c.kind.hir);
      AddCallsNoPropagation(env, ins.target, env.calls(c.kind), ins.graph);
    }
  }

  /** No edge of a graph built by the earlier revision is marked as propagating an error. */
  lemma EarlierNeverPropagates(ctx: Ctx, item: Item)
    ensures NoPropagatingEdges(CreateCallGraphFromRoot(ctx, Earlier, item))
  {
    var env := EnvOf(ctx, Earlier);
    forall k: NodeKind ensures NonePropagate(env.calls(k)) {
      EarlierCallsNeverPropagate(ctx, k);
    }
    if item.kind.FnItem? {
      var g0 := NewGraph("");
      var (g1, root) := AddNode(g0, Label(ctx, Earlier, item.def), LocalFn(item.def, item.id));
      var calls := ExprBodyCalls(ctx, Earlier, item.kind.body);
      assert NonePropagate(calls) by {
        match BodyBlockOfExpr(Earlier, item.kind.body)
        case Some(b) =>
          forall c | c in calls ensures !c.propagates {
            var j :| 0 <= j < |calls| && calls[j] == c;
          }
        case None =>
      }
      AddCallsNoPropagation(env, root, calls, g1);
    }
  }
}
