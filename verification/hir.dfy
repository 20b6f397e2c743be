/**
 * The part of the compiler's high-level IR (HIR) that the call-graph walkers look at,
 * and the compiler queries they make, supplied as a context of oracles.
 *
 * Function bodies are embedded in the tree (a closure carries its body expression, a
 * function item its body), so walking a body is structural recursion; the query
 * `hir_node` is the finite map `Ctx.hir`.
 */
module Hir {
  import opened Wrappers
  import opened Ids
  import opened Graph

  /** `DefKind`, reduced to the kinds the walkers tell apart. */
  datatype DefKind = FnKind | CtorKind | AssocFnKind | ClosureKind | OtherDefKind

  /** `Res`: a path resolved to a definition, or to anything else (a local, a primitive type, ...). */
  datatype Res = Def(defKind: DefKind, id: DefId) | NonDef

  /** `QPath`, with `TyKind` reduced to whether the qualifying type is itself a path. */
  datatype QPath = Resolved(res: Res) | TypeRelative(qself: HirTy) | LangItem
  datatype HirTy = PathTy(path: QPath) | OtherTy

  /** `MatchSource`: only the desugaring of the `?` operator is told apart. */
  datatype MatchSource = TryDesugar | OtherSource

  datatype Expr = Expr(id: HirId, kind: ExprKind)

  /** `ExprKind`, one variant per kind the walkers match; payloads the walkers ignore are dropped. */
  datatype ExprKind =
    | Call(callee: Expr, args: seq<Expr>)
    | MethodCall(receiver: Expr, args: seq<Expr>)
    | Match(scrutinee: Expr, arms: seq<Arm>, source: MatchSource)
    | Closure(closureDef: DefId, body: Expr)
    | ConstBlock(block: Block)
    | Array(elems: seq<Expr>)
    | Tup(elems: seq<Expr>)
    | Binary(lhs: Expr, rhs: Expr)
    | Unary(operand: Expr)
    | Lit
    | Cast(operand: Expr)
    | TypeAscription(operand: Expr)
    | DropTemps(operand: Expr)
    | Become(operand: Expr)
    | LetExpr(operand: Expr)
    | If(cond: Expr, consequent: Expr, alternative: Option<Expr>)
    | Loop(block: Block)
    | BlockExpr(block: Block)
    | Assign(lhs: Expr, rhs: Expr)
    | AssignOp(lhs: Expr, rhs: Expr)
    | Field(operand: Expr)
    | Index(lhs: Expr, rhs: Expr)
    | PathExpr(qpath: QPath)
    | AddrOf(operand: Expr)
    | Break(value: Option<Expr>)
    | Continue
    | Ret(value: Option<Expr>)
    | InlineAsm
    | OffsetOf
    | Struct(fields: seq<Expr>, base: Option<Expr>)
    | Repeat(operand: Expr)
    | Yield(operand: Expr)
    | ErrExpr

  datatype Arm = Arm(pat: Pat, guard: Option<Expr>, body: Expr)

  /** A block: its statements and its optional trailing (value) expression. */
  datatype Block = Block(stmts: seq<Stmt>, expr: Option<Expr>)

  datatype Stmt = LetStmt(init: Option<Expr>) | ItemStmt | ExprStmt(e: Expr) | SemiStmt(e: Expr)

  /** `PatKind`: patterns only reach expressions through literals and range bounds. */
  datatype Pat =
    | WildPat
    | NeverPat
    | BindingPat(sub: Option<Pat>)
    | StructPat(fieldPats: seq<Pat>)
    | TupleStructPat(pats: seq<Pat>)
    | OrPat(pats: seq<Pat>)
    | PathPat
    | TuplePat(pats: seq<Pat>)
    | BoxPat(inner: Pat)
    | DerefPat(inner: Pat)
    | RefPat(inner: Pat)
    | LitPat(lit: Expr)
    | RangePat(lo: Option<Expr>, hi: Option<Expr>)
    | SlicePat(before: seq<Pat>, mid: Option<Pat>, after: seq<Pat>)
    | ErrPat

  /** An item: its own HIR id, its `DefId`, and whether it is a function with a body. */
  datatype Item = Item(id: HirId, def: DefId, kind: ItemKind)
  datatype ItemKind = FnItem(body: Expr) | OtherItem
  datatype ImplItemKind = ImplFn(body: Expr) | OtherImplItem

  /** `rustc_hir::Node`, for the node kinds a function id can resolve to. */
  datatype HirNode =
    | ExprNode(expr: Expr)
    | BlockNode(block: Block)
    | ItemNode(item: Item)
    | ImplItemNode(implItem: ImplItemKind)
    | OtherNode

  /**
   * The compiler queries the analysis makes, as oracles:
   * - `hir`: `hir_node` on the crate's finitely many HIR ids;
   * - `mirCallee`: `get_call_def_id`, the callee recorded in optimized MIR for a call;
   * - `typeDependentDef`: `typeck(..).type_dependent_def_id` for method calls;
   * - `localHirId`: `local_def_id_to_hir_id`;
   * - `defPathStr` / `pathString`: the node labels of the current / earlier revision;
   * - `entry`: `entry_fn`.
   */
  datatype Ctx = Ctx(
    crateName: string,
    hir: map<HirId, HirNode>,
    mirCallee: HirId -> Option<DefId>,
    typeDependentDef: HirId -> Option<DefId>,
    localHirId: DefId -> HirId,
    defPathStr: DefId -> string,
    pathString: DefId -> string,
    entry: Option<DefId>)

  /** `get_node_kind_from_def_id`: local definitions become `LocalFn`, all others `NonLocalFn`. */
  function NodeKindOfDefId(ctx: Ctx, d: DefId): (k: NodeKind)
    ensures k.def == d
    ensures k.LocalFn? <==> IsLocal(d)
    ensures k.LocalFn? ==> k.hir == ctx.localHirId(d)
  {
    if IsLocal(d) then LocalFn(d, ctx.localHirId(d)) else NonLocalFn(d)
  }
}
