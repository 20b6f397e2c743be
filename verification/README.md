# Error-propagation analysis of a Rust crate, modelled in Dafny

The analyzer is a compiler plugin. It walks the high-level IR (HIR) of a crate from its entry
function and builds a **call graph**:
- one node per function reached;
- one edge per call, flagged when the caller forwards the callee's error with `?`, with
  `return`, or as the function's tail value.

Every edge is then annotated with the callee's return type and whether that type is an error.
The annotated graph is split into a **chain graph**:
- a chain starts at an error the caller does not forward;
- it follows the calls that keep forwarding it.

Two splitters exist:
- `calls_to_chains` flattens each chain onto shared nodes;
- `format_graph` lays every maximal path out as a line of fresh nodes.

The model covers:
- both graph types (`Graph`);
- the HIR walk that finds the calls of a body (`CallWalk`) and the earlier revision of that
  walk (`EarlyAnalysis`);
- the depth-first graph builder, for both revisions (`Builder`);
- the two splitters (`CallsToChains`, `FormatGraph`);
- the entry lookup, the annotation loop and the pipeline of `analyze` (`Analysis`).

Compiler queries are parameters, in `Hir.Ctx` or as `Analysis.ErrorOrType`. These are
`hir_node`, the callee recorded in MIR, type-dependent method resolution, def paths and the
entry function. The HIR is a datatype.

Both splitters recurse along forwarding error edges from chain starts and keep no visited set.
They therefore terminate only when no cycle of forwarding error edges is reachable from a chain
start; a cycle that no start reaches is never visited. Their callers supply a ranking that
witnesses this (`ChainEdges.Ranking`): a set of live nodes holding every start's callee and closed
under forwarding error edges, and a height that decreases along each such edge leaving a live
node.

## Model

| member | source | states |
|---|---|---|
| Hir.NodeKindOfDefId | src/analysis/create_graph.rs:441-448 | a definition of the local crate becomes a local function node keyed by its HIR id; any other becomes an external one; the `DefId` is kept either way |
| Graph.NewGraph | src/graph.rs:186-192 | a new call graph is empty, well formed and carries the crate name |
| Graph.AddNode | src/graph.rs:195-200 | the new node's id is the previous node count, it carries the label and kind and does not panic; earlier nodes and all edges are untouched, and the arena invariant is kept |
| Graph.NewEdge | src/graph.rs:294-303 | a new edge keeps its endpoints, call id and propagation flag and starts out unannotated and not an error |
| Graph.AddEdge | src/graph.rs:203-205 | exactly one edge is appended and nothing else changes; the graph stays well formed when both endpoints exist |
| Graph.FindLocalFnNode | src/graph.rs:208-218 | finds a local node with the given HIR id exactly when one exists, and it is the first such node; the `DefId` beside the HIR id plays no part |
| Graph.FindNonLocalFnNode | src/graph.rs:221-231 | finds an external node with the given `DefId` exactly when one exists, the first such; a local node never matches |
| Graph.GetOutgoingEdges | src/graph.rs:233-243 | the result holds exactly the edges that leave the node |
| Graph.OutgoingEdgesAppend | src/graph.rs:233-243 | the lookup distributes over concatenation, so the outgoing edges keep their order in the edge list |
| Graph.OutgoingEdgesSingleton | src/graph.rs:233-243 | a one-edge list yields that edge exactly when it leaves the node |
| Graph.EdgeLabel | src/graph.rs:53-55 | an edge is labelled with its annotated type, or `unknown` before annotation |
| Graph.NodeColor | src/graph.rs:57-63 | a node is red exactly when it panics and uncoloured otherwise |
| Graph.EdgeColor | src/graph.rs:65-75 | purple exactly for a forwarded error, red exactly for an unforwarded error, blue exactly for a forwarded non-error, none otherwise |
| Graph.EdgeStyle | src/graph.rs:77-83 | an edge is dotted exactly when it neither returns an error nor forwards |
| Graph.DottedIffUncoloured | src/graph.rs:65-83 | style and colour agree: an edge is dotted exactly when it has no colour |
| Graph.ValidNodeEqIsSameIndex | src/graph.rs:306-310 | in a well-formed graph two nodes compare equal exactly when they are the same slot |
| Graph.EdgeEqIgnoresAnnotation | src/graph.rs:324-328 | edge equality cannot tell an edge from its annotated or re-flagged version |
| Graph.CallEndpoints | src/graph.rs:93-99 | the walk visits each edge's caller, then its callee, edge by edge |
| Graph.FirstOccurrences | src/graph.rs:91-102 | reference order for the walk: the same values, each once, in order of first appearance |
| Graph.DedupWalk | src/graph.rs:91-102 | the deduplicating loop yields, in order, the node of each endpoint at its first occurrence |
| Graph.WalkNodes | src/graph.rs:91-102 | the rendered nodes are exactly the endpoints of edges, each once, in order of first appearance; nodes without edges are omitted |
| Graph.CallSource | src/graph.rs:108-110 | an edge is drawn from its caller |
| Graph.CallTarget | src/graph.rs:112-114 | an edge is drawn to its callee |
| Graph.RetainIdentChars | src/graph.rs:40-41 | only ASCII letters, digits and `_` remain, and every such character of the name remains |
| Graph.RetainAppend | src/graph.rs:40-41 | filtering the name works character by character, so it distributes over concatenation |
| Graph.RetainKeepsIdentifiers | src/graph.rs:40-41 | a name made only of identifier characters is left unchanged |
| Graph.RetainIdempotent | src/graph.rs:40-41 | filtering twice is filtering once |
| Graph.GraphId | src/graph.rs:39-43 | the id is `error_propagation_` followed by the filtered crate name, and it is always a valid renderer id, so the `unwrap` cannot fail |
| Graph.PrefixedIsDotId | src/graph.rs:42 | the fixed prefix followed by identifier characters is a valid renderer id |
| Graph.ChainGraphId | src/graph.rs:138-142 | the chain graph's id is the call graph's id followed by `_chains`, and it is always a valid renderer id |
| Graph.ChainEdgeLabel | src/graph.rs:152-154 | a chain edge is labelled with its type, or `unknown` when it has none |
| Graph.ChainEndpoints | src/graph.rs:160-166 | the chain walk visits each edge's `from`, then its `to`, edge by edge |
| Graph.WalkChainNodes | src/graph.rs:158-169 | the rendered chain nodes are exactly the endpoints of chain edges, each once, in order of first appearance |
| Graph.ChainSource | src/graph.rs:175-177 | a chain edge is drawn from its `to` node, against the call direction |
| Graph.ChainTarget | src/graph.rs:179-181 | a chain edge is drawn to its `from` node |
| Graph.NewChainGraph | src/graph.rs:332-338 | a new chain graph is empty, well formed and carries the crate name |
| Graph.AddChainNode | src/graph.rs:340-346 | the new chain node's id is the previous node count and it carries the label; nothing else changes |
| Graph.AddChainEdge | src/graph.rs:348-350 | exactly one chain edge with the given endpoints and type is appended; the graph stays well formed when both endpoints exist |
| CallWalk.MarkPropagating | src/analysis/create_graph.rs:128-131 | the calls of a forwarded expression keep kind, id and edge flag, in order, and all become propagating |
| CallWalk.UnflaggedMarkPropagating | src/analysis/create_graph.rs:128-131 | marking calls as propagating changes nothing but the propagation flag |
| CallWalk.TryPropagatesOperandCalls | src/analysis/create_graph.rs:206-214 | for `e?` every found call propagates, they are exactly the operand's calls, and the desugared match arms are never walked |
| CallWalk.ReturnPropagatesValueCalls | src/analysis/create_graph.rs:310-316 | every call in a `return` value propagates, they are exactly the value's calls, and a bare `return` yields none |
| CallWalk.ClosureNotWalked | src/analysis/create_graph.rs:227-233 | a closure yields one local, edgeless, non-propagating reference to itself, whatever its body |
| CallWalk.MirCalleeTakesPrecedence | src/analysis/create_graph.rs:169-181 | when MIR names the callee, the callee expression is irrelevant: the call is an edge to that definition, followed by the arguments' calls |
| CallWalk.PathAddsEdgeOnlyForCallables | src/analysis/create_graph.rs:294-298 | a path used as a value makes a node, with an edge only for functions, constructors, associated functions and closures; as a callee it always makes an edge |
| CallWalk.TypeRelativeResolvesThroughQualifier | src/analysis/create_graph.rs:429-433 | a type-relative path resolves through its qualifying path at any depth, and to nothing when the qualifier is not a path |
| CallWalk.OneOperandCalls | src/analysis/create_graph.rs:251-262 | a unary, cast, type-ascription, drop-temps or `become` expression has exactly its operand's calls |
| CallWalk.TwoOperandCalls | src/analysis/create_graph.rs:279-293 | an assignment, compound assignment or index expression has the left operand's calls, then the right operand's |
| CallWalk.ExprNoForwarding | src/analysis/create_graph.rs:161-343 | an expression with no `?` and no `return` inside yields no propagating call |
| CallWalk.CompoundNoForwarding | src/analysis/create_graph.rs:161-343 | the same, for the expression kinds with several or optional parts |
| CallWalk.BlockNoForwarding | src/analysis/create_graph.rs:113-157 | an inner block with no `?` and no `return` inside yields no propagating call |
| CallWalk.StmtNoForwarding | src/analysis/create_graph.rs:139-154 | the same for one statement |
| CallWalk.ArmNoForwarding | src/analysis/create_graph.rs:219-225 | the same for one match arm: its body, guard and pattern |
| CallWalk.PatNoForwarding | src/analysis/create_graph.rs:346-415 | the same for a pattern, whose only expressions are literals and range bounds |
| CallWalk.FnBodyOnlyAddsPropagation | src/analysis/create_graph.rs:113-136 | walking a block as a function body finds the same calls in the same order as walking it as an inner block; more of them may propagate, none fewer |
| CallWalk.FnBodyPropagatesExactlyTail | src/analysis/create_graph.rs:120-136 | in a body without `?` or `return`, a call propagates exactly when it comes from the tail expression, and those calls come first |
| EarlyAnalysis.MethodCallAlwaysNonLocal | src/analysis.rs:207-218 | the earlier revision records a resolved method call as a call to an external function, even when the method is local |
| EarlyAnalysis.ResolvedPathOnlyForFunctions | src/analysis.rs:418-426 | a resolved callee path counts exactly when it names a plain function; a bare path expression yields nothing |
| EarlyAnalysis.TypeRelativeOneLevel | src/analysis.rs:427-435 | a type-relative path resolves only one level deep, to its qualifier's definition of any kind |
| EarlyAnalysis.ClosureWalkedInline | src/analysis.rs:267-271 | a closure contributes exactly its body's calls, attributed to the enclosing function |
| EarlyAnalysis.StartsWith | src/analysis.rs:460 | a string starts with a prefix exactly when it is at least as long and its first characters are the prefix |
| EarlyAnalysis.IsResultTypeExactly | src/analysis.rs:459-461 | a printed type is recognised if and only if it is the path `std::result::Result<` followed by anything |
| Builder.FindNode | src/analysis/create_graph.rs:72-92 | the lookup before adding a callee finds a node for the same function exactly when one exists |
| Builder.UnexploredShrinks | src/analysis/create_graph.rs:79-88 | adding the node of a local function that has a body and no node yet shrinks the set of unexplored bodies, so the depth-first walk terminates |
| Builder.InsertCall | src/analysis/create_graph.rs:71-105 | one call: the callee's node is reused or appended, appended exactly when it was missing; an edge from the caller is appended exactly when the call asks for one; the graph stays valid, duplicate-free and panic-free |
| Builder.NewNodeUnique | src/analysis/create_graph.rs:79-89 | a node added for a function that had none keeps every function on at most one node |
| Builder.NoEdgesFromNewNode | src/analysis/create_graph.rs:79-86 | a node just created has no outgoing edges yet |
| Builder.AddCall | src/analysis/create_graph.rs:72-105 | one iteration, including the walk of a newly found local function, only appends to the graph and keeps it valid, duplicate-free and panic-free |
| Builder.AddCalls | src/analysis/create_graph.rs:66-110 | the whole loop only appends to the graph and keeps it valid, duplicate-free and panic-free |
| Builder.AddCallComplete | src/analysis/create_graph.rs:72-105 | after one iteration: the callee has a node, the caller's new edges are exactly this call's edge, and every node created is fully explored |
| Builder.AddCallsComplete | src/analysis/create_graph.rs:66-110 | after the loop: every callee has a node; the caller's new edges are exactly its edge-producing calls, in order, with their ids and flags; every node created is fully explored |
| Builder.CreateCallGraphFromRoot | src/analysis/create_graph.rs:12-26 | a function item becomes node 0 with its label and kind; any other item gives an empty graph; the result is valid, duplicate-free, panic-free and named after the crate |
| Builder.ExploreRoot | src/analysis/create_graph.rs:16-23 | the function item's node stays node 0 with its label and kind after its body's calls are explored, and the explored graph is valid, duplicate-free and panic-free |
| Builder.CallGraphComplete | src/analysis/create_graph.rs:12-63 | in the finished graph, the root's outgoing edges are exactly its body's edge-producing calls in order, every callee has a node, and every other node is explored the same way |
| Builder.PathResolutionWidened | src/analysis/create_graph.rs:418-438 | the current revision resolves every path the earlier one resolves, to the same node kind |
| Builder.EarlierCallsNeverPropagate | src/analysis.rs:117-145 | the earlier walk never flags a call as propagating |
| Builder.EarlierNeverPropagates | src/analysis.rs:65-79 | no edge of a graph built by the earlier revision propagates an error |
| ChainEdges.RankedNoCycle | src/analysis/calls_to_chains.rs:46-50 | along any path of forwarding error calls from a live node the height strictly falls, so the path never returns to its first caller: every recursion that would not end is ruled out |
| ChainEdges.NoStartsNoRanking | src/analysis/calls_to_chains.rs:12-14 | a graph in which no edge starts a chain is accepted with no live node, whatever cycles its forwarding edges form |
| CallsToChains.ChainFromEdge | src/analysis/calls_to_chains.rs:41-53 | a chain begins with its start edge, and every later edge is a forwarding error call of the graph |
| CallsToChains.ChainsBelow | src/analysis/calls_to_chains.rs:46-50 | the loop over the edges leaving a node contributes only forwarding error calls of the graph |
| CallsToChains.ChainIsPreorder | src/analysis/calls_to_chains.rs:41-53 | a chain is a depth-first preorder: each edge after the first leaves the callee of an earlier edge |
| CallsToChains.ChainsBelowPreorder | src/analysis/calls_to_chains.rs:46-50 | each edge the loop contributes leaves the node or the callee of an earlier contributed edge |
| CallsToChains.ChainMembers | src/analysis/calls_to_chains.rs:41-53 | the edges after the first are exactly the forwarding error calls reachable through forwarding error calls from the start edge's callee |
| CallsToChains.ChainsBelowMembers | src/analysis/calls_to_chains.rs:46-50 | an edge is contributed by the loop exactly when it is reached through one of the forwarding error calls leaving the node |
| CallsToChains.MapNode | src/analysis/calls_to_chains.rs:17-31 | the `node_map` lookup reuses the chain node of a call-graph node, or adds one with its label; chain nodes stay distinct per call-graph node and edges are untouched |
| CallsToChains.FlattenChain | src/analysis/calls_to_chains.rs:15-34 | one chain adds one fresh chain node per distinct call-graph node it mentions, labelled alike, and one chain edge per call between the mapped nodes, carrying the call's type |
| CallsToChains.FlattenStep | src/analysis/calls_to_chains.rs:16-33 | one iteration of the inner loop keeps the node map and the edges in step with the calls seen |
| CallsToChains.AllChains | src/analysis/calls_to_chains.rs:12-14 | the chains of the start edges among the first edges, concatenated in edge order, consist of edges of the graph |
| CallsToChains.SplitFromStart | src/analysis/calls_to_chains.rs:14-35 | a start edge appends its chain's edges, each standing for its call |
| CallsToChains.SplitStep | src/analysis/calls_to_chains.rs:12-36 | one pass of the edge loop keeps the chain graph equal to the flattened chains of the edges seen so far: a start edge adds its chain, any other edge adds nothing |
| CallsToChains.SplitChains | src/analysis/calls_to_chains.rs:8-39 | the chain graph has one edge per edge of every chain, in order; each carries the call's type and joins nodes labelled like the call's caller and callee |
| FormatGraph.PrefixAll | src/analysis/format_graph.rs:35-39 | each chain found below is extended with the current edge in front, in order |
| FormatGraph.FindChains | src/analysis/format_graph.rs:28-48 | at least one chain is found, and every chain starts with the start edge |
| FormatGraph.Extensions | src/analysis/format_graph.rs:31-41 | every chain built by the loop starts with the start edge |
| FormatGraph.ExtensionsNone | src/analysis/format_graph.rs:43-45 | the loop finds nothing exactly when no forwarding error call leaves the callee, which is when the start edge alone is returned |
| FormatGraph.ExtensionsSound | src/analysis/format_graph.rs:31-41 | a chain built by the loop continues through one of the forwarding error calls leaving the callee, and from there is maximal |
| FormatGraph.ExtensionsContain | src/analysis/format_graph.rs:31-41 | every chain below a forwarding error call leaving the callee is extended and kept |
| FormatGraph.FindChainsSound | src/analysis/format_graph.rs:28-48 | every chain found is a maximal path of forwarding error calls from the start edge |
| FormatGraph.FindChainsComplete | src/analysis/format_graph.rs:28-48 | every maximal path of forwarding error calls from the start edge is found |
| FormatGraph.FindChainsExact | src/analysis/format_graph.rs:28-48 | a chain is found exactly when it is a maximal path of forwarding error calls from the start edge |
| FormatGraph.AddLine | src/analysis/format_graph.rs:15-20 | a chain becomes a line of fresh nodes: one labelled like the first caller, one per call labelled like its callee, joined in order by edges with the calls' types |
| FormatGraph.AddLines | src/analysis/format_graph.rs:14-21 | the chains of one start edge are laid out as lines, one after the other, after the lines already there |
| FormatGraph.SplitStart | src/analysis/format_graph.rs:8 | before any edge the new chain graph holds no line |
| FormatGraph.SplitFromStart | src/analysis/format_graph.rs:13-21 | a start edge adds a line for each of its chains, right after the earlier lines |
| FormatGraph.SplitStep | src/analysis/format_graph.rs:11-23 | one pass of the edge loop keeps the chain graph laid out as the lines of the edges seen so far: a start edge adds its lines, any other edge adds none |
| FormatGraph.SplitSkip | src/analysis/format_graph.rs:11-22 | an edge that starts no chain adds nothing |
| FormatGraph.SplitChains | src/analysis/format_graph.rs:7-26 | the chain graph is exactly the lines of all chains of all start edges, in edge order, each on nodes of its own, and has no other nodes or edges |
| Analysis.Annotate | src/analysis/mod.rs:32-41 | every edge is annotated in place with the oracle's type and error flag for its call, caller and callee; nodes, crate name and edge count stay |
| Analysis.AnnotationKeepsStructure | src/analysis/mod.rs:32-41 | annotation keeps the graph well formed; each edge keeps its endpoints, call id and propagation flag, gains a type, and takes its error flag from the oracle |
| Analysis.AnnotatedUnique | src/analysis/mod.rs:32-41 | the annotated graph is determined by the graph and the oracle |
| Analysis.AnnotationIdempotent | src/analysis/mod.rs:32-41 | annotating an annotated graph again with the same oracle changes nothing |
| Analysis.StartsAfterAnnotation | src/analysis/mod.rs:33-40 | after annotation an edge starts a chain exactly when the oracle calls the callee's result an error and the caller does not forward it |
| Analysis.EntryItem | src/analysis/mod.rs:50-56 | the entry lookup fails without an entry function, fails when the entry is not local, fails when its HIR node is not an item, and otherwise yields exactly that item |
| Analysis.Analyze | src/analysis/mod.rs:23-47 | fails exactly when the entry lookup fails, with its error; otherwise returns the annotated call graph of the entry function and its chains, split as `calls_to_chains` does |

## Left out

- `src/main.rs` (the compiler driver and file output) and `src/legacy.rs` are not part of this model.
- `types::get_error_or_type` is the parameter `Analysis.ErrorOrType`. The type printing and the error test it uses are not modelled.
- `get_call_def_id` scans optimized MIR for the call by source span. It is the oracle `ctx.mirCallee`.
- `typeck(..).type_dependent_def_id`, `local_def_id_to_hir_id`, `def_path_str`, the earlier revision's path string and `entry_fn` are oracles in `Hir.Ctx`. Crate numbers decide locality.
- `hir_node` is a finite map. Closure bodies, function bodies and `const` blocks are embedded in the HIR datatype. The panics of `expect_block` and `expect_expr` on malformed HIR cannot arise there.
- Rendering to dot (`to_dot`, `node_id`, `node_label`, `kind`, `edges`) is not modelled. Only the labels, colours, styles, ids and the node walk the renderer asks for are.
- The earlier `analyze` annotates incoming edges and prints whether each type is a `Result`. It uses a graph API (`incoming_edges`, `set_label`, `get_return_type`) that `src/graph.rs` does not define. Only its `is_result_type` test is modelled.
- The earlier revision creates its graph with `Graph::new()`, without a crate name. Its graph is modelled with the empty crate name.
- The earlier revision keys local nodes by HIR id only. The model reuses the current node kind and carries the `DefId` as well.
- `create_graph.rs` and `format_graph.rs` use the type names `Graph`, `Edge` and `NodeKind`. `src/graph.rs` defines `CallGraph`, `CallEdge` and `CallNodeKind`, and the model uses those.
- `analysis/mod.rs` calls `calls_to_chains::to_chains`, which that module does not define. Its public function is `format`. `Analysis.Analyze` uses `CallsToChains.SplitChains`, the body of `format`.
- `format_graph.rs` is not declared as a module in `analysis/mod.rs`. It is modelled on its own, over the call graph.
- The `expect` calls of `get_entry_node` and `expect_item` abort the compiler. They are the `Analysis.AnalysisError` cases. A local entry whose HIR id has no node in the map is reported as `EntryNotItem`.
- A newly found local function whose HIR id has no node in the map gets a node but is not explored. The compiler would abort in `hir_node` instead.
- Both splitters require `ChainEdges.Ranked` and `ChainEdges.CoversStarts`: on a cycle of continuing edges reachable from a chain start the source recurses without end. `Analysis.Analyze` passes this on as `RankedAnnotation`. `ChainEdges.RankedNoCycle` shows that every such cycle is excluded. The converse, that a ranking exists whenever no start reaches a cycle, is not proved.
- Integer widths (`usize`) are unbounded in the model. No count can come close to overflowing.
- `node_map` is a `HashMap`, modelled by a finite map. Only lookup and insertion are used, so hashing plays no part.
- `CallsToChains.SplitChains`: the overall contract speaks of chain edges, their types and their endpoints' labels. The fact that each chain gets its own nodes, shared within the chain, is stated per chain by `CallsToChains.FlattenChain`.
- `Analysis.Analyze`: states the chain graph only through `CallsToChains.Flattened`, as `CallsToChains.SplitChains` does.
