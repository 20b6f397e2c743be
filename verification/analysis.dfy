/**
 * `analysis/mod.rs`: find the entry function, build its call graph, annotate every edge with
 * the callee's return type and whether it is an error, and split the annotated graph into
 * error-propagation chains.
 */
module Analysis {
  import opened Wrappers
  import opened Ids
  import opened Graph
  import opened Hir
  import opened ChainEdges
  import Builder
  import CallsToChains

  /**
   * `types::get_error_or_type` for one call: given the call's HIR id and the `DefId`s of caller
   * and callee, the printed return type and whether it is an error.
   */
  type ErrorOrType = (HirId, DefId, DefId) -> (string, bool)

  /** Edge `e` of graph `g` with the oracle's answer for it filled in. */
  function AnnotatedEdge(g: CallGraph, errorOrType: ErrorOrType, e: CallEdge): CallEdge
    requires e.from < |g.nodes| && e.to < |g.nodes|
  {
    var (ty, error) := errorOrType(e.callId, g.nodes[e.from].kind.def, g.nodes[e.to].kind.def);
    e.(ty := Some(ty), isError := error)
  }

  /** `a` is `g` after the annotation loop: same nodes, each edge annotated in place. */
  predicate Annotated(g: CallGraph, errorOrType: ErrorOrType, a: CallGraph)
  {
    && Valid(g)
    && a.nodes == g.nodes && a.crateName == g.crateName && |a.edges| == |g.edges|
    && forall i | 0 <= i < |g.edges| :: a.edges[i] == AnnotatedEdge(g, errorOrType, g.edges[i])
  }

  /** The annotation loop of `analyze`. */
  method Annotate(g: CallGraph, errorOrType: ErrorOrType) returns (a: CallGraph)
    requires Valid(g)
    ensures Annotated(g, errorOrType, a)
  {
    a := g;
    var i := 0;
    while i < |a.edges|
      invariant 0 <= i <= |a.edges| == |g.edges|
      invariant a.nodes == g.nodes && a.crateName == g.crateName
      invariant forall k | 0 <= k < i :: a.edges[k] == AnnotatedEdge(g, errorOrType, g.edges[k])
      invariant forall k | i <= k < |a.edges| :: a.edges[k] == g.edges[k]
    {
      var edge := a.edges[i];
      assert edge in g.edges;
      var (ty, error) := errorOrType(edge.callId, a.nodes[edge.from].kind.def, a.nodes[edge.to].kind.def);
      edge := edge.(ty := Some(ty), isError := error);
      a := a.(edges := a.edges[i := edge]);
      i := i + 1;
    }
  }

  /**
   * Annotation only fills in `ty` and `is_error`: endpoints, call id, propagation, order and
   * nodes stay, every edge gets a type, and its error flag is the oracle's.
   */
  lemma AnnotationKeepsStructure(g: CallGraph, errorOrType: ErrorOrType, a: CallGraph, i: nat)
    requires Annotated(g, errorOrType, a) && i < |g.edges|
    ensures Valid(a)
    ensures a.edges[i].from == g.edges[i].from && a.edges[i].to == g.edges[i].to
    ensures a.edges[i].callId == g.edges[i].callId && a.edges[i].propagates == g.edges[i].propagates
    ensures EdgeEq(a.edges[i], g.edges[i])
    ensures a.edges[i].ty.Some?
    ensures a.edges[i].isError
      == errorOrType(g.edges[i].callId, g.nodes[g.edges[i].from].kind.def, g.nodes[g.edges[i].to].kind.def).1
  {
    assert g.edges[i] in g.edges;
    forall e | e in a.edges ensures e.from < |a.nodes| && e.to < |a.nodes| {
      var k :| 0 <= k < |a.edges| && a.edges[k] == e;
      assert g.edges[k] in g.edges;
    }
  }

  /** The annotation of a graph is determined by the graph and the oracle. */
  lemma AnnotatedUnique(g: CallGraph, errorOrType: ErrorOrType, a1: CallGraph, a2: CallGraph)
    requires Annotated(g, errorOrType, a1) && Annotated(g, errorOrType, a2)
    ensures a1 == a2
  {
    assert a1.edges == a2.edges;
  }

  /** Annotating an annotated graph again with the same oracle changes nothing. */
  lemma AnnotationIdempotent(g: CallGraph, errorOrType: ErrorOrType, a: CallGraph, b: CallGraph)
    requires Annotated(g, errorOrType, a) && Annotated(a, errorOrType, b)
    ensures b == a
  {
    forall i | 0 <= i < |a.edges| ensures b.edges[i] == a.edges[i] {
      assert g.edges[i] in g.edges;
    }
    assert b.edges == a.edges;
  }

  /**
   * After annotation, an edge starts a chain exactly when the oracle calls the callee's result
   * an error and the caller does not propagate it.
   */
  lemma StartsAfterAnnotation(g: CallGraph, errorOrType: ErrorOrType, a: CallGraph, i: nat)
    requires Annotated(g, errorOrType, a) && i < |g.edges|
    ensures IsStart(a.edges[i]) <==>
      && errorOrType(g.edges[i].callId, g.nodes[g.edges[i].from].kind.def, g.nodes[g.edges[i].to].kind.def).1
      && !g.edges[i].propagates
  {
    assert g.edges[i] in g.edges;
  }

  // ---------------------------------------------------------------------------------------
  // `get_entry_node` and `analyze`
  // ---------------------------------------------------------------------------------------

  /** Where `get_entry_node` (and `expect_item` on its result) aborts. */
  datatype AnalysisError = NoEntryFunction | EntryNotLocal | EntryNotItem

  /** `get_entry_node` followed by `expect_item`: the entry function's item. */
  function EntryItem(ctx: Ctx): (r: Result<Item, AnalysisError>)
    ensures ctx.entry.None? <==> r == Failure(NoEntryFunction)
    ensures r == Failure(EntryNotLocal) <==> ctx.entry.Some? && !IsLocal(ctx.entry.value)
    ensures r.Success? <==>
      && ctx.entry.Some? && IsLocal(ctx.entry.value)
      && ctx.localHirId(ctx.entry.value) in ctx.hir && ctx.hir[ctx.localHirId(ctx.entry.value)].ItemNode?
    ensures r.Success? ==> ctx.hir[ctx.localHirId(ctx.entry.value)] == ItemNode(r.value)
  {
    match ctx.entry
    case None => Failure(NoEntryFunction)
    case Some(d) =>
      if !IsLocal(d) then Failure(EntryNotLocal)
      else
        var id := ctx.localHirId(d);
        if id in ctx.hir && ctx.hir[id].ItemNode? then Success(ctx.hir[id].item) else Failure(EntryNotItem)
  }

  /** The call graph `analyze` annotates, when there is an entry item. */
  ghost predicate RankedAnnotation(ctx: Ctx, errorOrType: ErrorOrType, rank: Ranking)
  {
    EntryItem(ctx).Success? ==>
      var g := Builder.CreateCallGraphFromRoot(ctx, Builder.Current, EntryItem(ctx).value);
      forall a | Annotated(g, errorOrType, a) :: Ranked(a, rank) && CoversStarts(a, rank)
  }

  /**
   * `analyze`: the annotated call graph of the entry function and its chain graph, or the
   * reason the entry lookup aborts. The chains are split by `calls_to_chains`.
   */
  method Analyze(ctx: Ctx, errorOrType: ErrorOrType, ghost rank: Ranking)
    returns (r: Result<(CallGraph, ChainGraph), AnalysisError>)
    requires RankedAnnotation(ctx, errorOrType, rank)
    ensures r.Failure? <==> EntryItem(ctx).Failure?
    ensures r.Failure? ==> r.error == EntryItem(ctx).error
    ensures r.Success? ==>
      var (calls, chains) := r.value;
      && Annotated(Builder.CreateCallGraphFromRoot(ctx, Builder.Current, EntryItem(ctx).value), errorOrType, calls)
      && Valid(calls) && Ranked(calls, rank) && CoversStarts(calls, rank)
      && ValidChain(chains) && chains.crateName == ctx.crateName
      && CallsToChains.Flattened(calls, CallsToChains.AllChains(calls, rank, |calls.edges|), chains)
  {
    var entry := EntryItem(ctx);
    if entry.Failure? {
      return Failure(entry.error);
    }
    var g := Builder.CreateCallGraphFromRoot(ctx, Builder.Current, entry.value);
    var calls := Annotate(g, errorOrType);
    assert Valid(calls) by {
      forall e | e in calls.edges ensures e.from < |calls.nodes| && e.to < |calls.nodes| {
        var k :| 0 <= k < |calls.edges| && calls.edges[k] == e;
        AnnotationKeepsStructure(g, errorOrType, calls, k);
      }
    }
    var chains := CallsToChains.SplitChains(calls, rank);
    return Success((calls, chains));
  }
}
