/**
 * The call-discovery walk of the earlier builder revision. It records only the callee and the
 * call's HIR id: there is no edge/no-edge distinction and no propagation tracking, paths are
 * resolved more narrowly, method calls are never local, and closure bodies are walked inline.
 */
module EarlyAnalysis {
  import opened Wrappers
  import opened Ids
  import opened Graph
  import opened Hir

  /** One discovered call: the callee's node kind and the call's HIR id. */
  datatype Discovered = Discovered(kind: NodeKind, callId: HirId)

  /**
   * Path resolution of the earlier revision: a resolved path counts only when it names a plain
   * function; a type-relative path counts when its qualifying type is a resolved path to any
   * definition, one level deep.
   */
  function NodeKindFromPath(ctx: Ctx, qp: QPath): Option<NodeKind>
  {
    match qp
    case Resolved(res) =>
      if res.Def? && res.defKind == FnKind then Some(NodeKindOfDefId(ctx, res.id)) else None
    case TypeRelative(ty) =>
      if ty.PathTy? && ty.path.Resolved? && ty.path.res.Def? then Some(NodeKindOfDefId(ctx, ty.path.res.id))
      else None
    case LangItem => None
  }

  /** The trailing expression first, then the statements. */
  function CallsInBlock(ctx: Ctx, b: Block): seq<Discovered>
    decreases b
  {
    CallsInOptExpr(ctx, b.expr) + CallsInStmts(ctx, b.stmts)
  }

  function CallsInStmts(ctx: Ctx, ss: seq<Stmt>): seq<Discovered>
    decreases ss
  {
    if ss == [] then [] else CallsInStmt(ctx, ss[0]) + CallsInStmts(ctx, ss[1..])
  }

  function CallsInStmt(ctx: Ctx, s: Stmt): seq<Discovered>
    decreases s
  {
    match s
    case LetStmt(init) => CallsInOptExpr(ctx, init)
    case ItemStmt => []
    case ExprStmt(x) => CallsInExpr(ctx, x)
    case SemiStmt(x) => CallsInExpr(ctx, x)
  }

  function CallsInOptExpr(ctx: Ctx, oe: Option<Expr>): seq<Discovered>
    decreases oe
  {
    match oe
    case Some(x) => CallsInExpr(ctx, x)
    case None => []
  }

  function CallsInExprs(ctx: Ctx, es: seq<Expr>): seq<Discovered>
    decreases es
  {
    if es == [] then [] else CallsInExpr(ctx, es[0]) + CallsInExprs(ctx, es[1..])
  }

  function CallsInExpr(ctx: Ctx, e: Expr): seq<Discovered>
    decreases e
  {
    match e.kind
    case Call(callee, args) =>
      (if callee.kind.PathExpr? then
         match NodeKindFromPath(ctx, callee.kind.qpath)
         case Some(k) => [Discovered(k, e.id)]
         case None => []
       else [])
      + CallsInExprs(ctx, args)
    case MethodCall(receiver, args) =>
      (match ctx.typeDependentDef(e.id)
       case Some(d) => [Discovered(NonLocalFn(d), e.id)]
       case None => [])
      + CallsInExpr(ctx, receiver) + CallsInExprs(ctx, args)
    case Match(scrutinee, arms, _) => CallsInExpr(ctx, scrutinee) + CallsInArms(ctx, arms)
    case Closure(_, body) => CallsInExpr(ctx, body)
    case ConstBlock(b) => CallsInBlock(ctx, b)
    case Array(es) => CallsInExprs(ctx, es)
    case Tup(es) => CallsInExprs(ctx, es)
    case Binary(a, b) => CallsInExpr(ctx, a) + CallsInExpr(ctx, b)
    case Unary(x) => CallsInExpr(ctx, x)
    case Lit => []
    case Cast(x) => CallsInExpr(ctx, x)
    case TypeAscription(x) => CallsInExpr(ctx, x)
    case DropTemps(x) => CallsInExpr(ctx, x)
    case Become(x) => CallsInExpr(ctx, x)
    case LetExpr(x) => CallsInExpr(ctx, x)
    case If(c, t, el) => CallsInExpr(ctx, c) + CallsInExpr(ctx, t) + CallsInOptExpr(ctx, el)
    case Loop(b) => CallsInBlock(ctx, b)
    case BlockExpr(b) => CallsInBlock(ctx, b)
    case Assign(a, b) => CallsInExpr(ctx, a) + CallsInExpr(ctx, b)
    case AssignOp(a, b) => CallsInExpr(ctx, a) + CallsInExpr(ctx, b)
    case Field(x) => CallsInExpr(ctx, x)
    case Index(a, b) => CallsInExpr(ctx, a) + CallsInExpr(ctx, b)
    case PathExpr(_) => []
    case AddrOf(x) => CallsInExpr(ctx, x)
    case Break(v) => CallsInOptExpr(ctx, v)
    case Continue => []
    case Ret(v) => CallsInOptExpr(ctx, v)
    case InlineAsm => []
    case OffsetOf => []
    case Struct(fields, base) => CallsInExprs(ctx, fields) + CallsInOptExpr(ctx, base)
    case Repeat(x) => CallsInExpr(ctx, x)
    case Yield(x) => CallsInExpr(ctx, x)
    case ErrExpr => []
  }

  function CallsInArms(ctx: Ctx, arms: seq<Arm>): seq<Discovered>
    decreases arms
  {
    if arms == [] then [] else CallsInArm(ctx, arms[0]) + CallsInArms(ctx, arms[1..])
  }

  function CallsInArm(ctx: Ctx, a: Arm): seq<Discovered>
    decreases a
  {
    CallsInExpr(ctx, a.body) + CallsInOptExpr(ctx, a.guard) + CallsInPat(ctx, a.pat)
  }

  function CallsInPat(ctx: Ctx, p: Pat): seq<Discovered>
    decreases p
  {
    match p
    case WildPat => []
    case NeverPat => []
    case BindingPat(sub) => CallsInOptPat(ctx, sub)
    case StructPat(ps) => CallsInPats(ctx, ps)
    case TupleStructPat(ps) => CallsInPats(ctx, ps)
    case OrPat(ps) => CallsInPats(ctx, ps)
    case PathPat => []
    case TuplePat(ps) => CallsInPats(ctx, ps)
    case BoxPat(q) => CallsInPat(ctx, q)
    case DerefPat(q) => CallsInPat(ctx, q)
    case RefPat(q) => CallsInPat(ctx, q)
    case LitPat(x) => CallsInExpr(ctx, x)
    case RangePat(lo, hi) => CallsInOptExpr(ctx, lo) + CallsInOptExpr(ctx, hi)
    case SlicePat(bs, m, afters) => CallsInPats(ctx, bs) + CallsInOptPat(ctx, m) + CallsInPats(ctx, afters)
    case ErrPat => []
  }

  function CallsInOptPat(ctx: Ctx, op: Option<Pat>): seq<Discovered>
    decreases op
  {
    match op
    case Some(q) => CallsInPat(ctx, q)
    case None => []
  }

  function CallsInPats(ctx: Ctx, ps: seq<Pat>): seq<Discovered>
    decreases ps
  {
    if ps == [] then [] else CallsInPat(ctx, ps[0]) + CallsInPats(ctx, ps[1..])
  }

  // ---------------------------------------------------------------------------------------
  // Properties of the earlier walk.
  // ---------------------------------------------------------------------------------------

  /** A method call is always recorded as a call to a non-local function, even when the method is local. */
  lemma MethodCallAlwaysNonLocal(ctx: Ctx, id: HirId, receiver: Expr, args: seq<Expr>, d: DefId)
    requires ctx.typeDependentDef(id) == Some(d)
    ensures var r := CallsInExpr(ctx, Expr(id, MethodCall(receiver, args)));
      |r| >= 1 && r[0] == Discovered(NonLocalFn(d), id) && !r[0].kind.LocalFn?
  {
  }

  /** A resolved path is a callee exactly when it names a plain function; a bare path is never a call. */
  lemma ResolvedPathOnlyForFunctions(ctx: Ctx, id: HirId, k: DefKind, d: DefId)
    ensures NodeKindFromPath(ctx, Resolved(Def(k, d))).Some? <==> k == FnKind
    ensures NodeKindFromPath(ctx, Resolved(NonDef)).None?
    ensures CallsInExpr(ctx, Expr(id, PathExpr(Resolved(Def(k, d))))) == []
  {
  }

  /** Type-relative paths are resolved one level deep, whatever the kind of the qualifying definition. */
  lemma TypeRelativeOneLevel(ctx: Ctx, k: DefKind, d: DefId, qp: QPath)
    ensures NodeKindFromPath(ctx, TypeRelative(PathTy(Resolved(Def(k, d))))) == Some(NodeKindOfDefId(ctx, d))
    ensures NodeKindFromPath(ctx, TypeRelative(PathTy(TypeRelative(PathTy(qp))))).None?
  {
  }

  /** A closure contributes exactly the calls of its body, attributed to the enclosing function. */
  lemma ClosureWalkedInline(ctx: Ctx, id: HirId, d: DefId, body: Expr)
    ensures CallsInExpr(ctx, Expr(id, Closure(d, body))) == CallsInExpr(ctx, body)
  {
  }

  // ---------------------------------------------------------------------------------------
  // `is_result_type`: a printed type names `Result` when it starts with its full path.
  // ---------------------------------------------------------------------------------------

  const ResultTypePrefix: string := "std::result::Result<"

  /** Whether `p` is a prefix of `s`, checked character by character. */
  function StartsWith(s: string, p: string): (b: bool)
    ensures b <==> |p| <= |s| && s[..|p|] == p
    decreases p
  {
    if p == [] then true
    else if s == [] then false
    else s[0] == p[0] && StartsWith(s[1..], p[1..])
  }

  predicate IsResultType(printed: string)
  {
    StartsWith(printed, ResultTypePrefix)
  }

  /** A printed type is recognised exactly when it is `Result`'s full path followed by anything. */
  lemma IsResultTypeExactly(printed: string)
    ensures IsResultType(printed) <==> exists args: string :: printed == ResultTypePrefix + args
  {
    if IsResultType(printed) {
      RecognisedHasArgs(printed);
    }
    if exists args: string :: printed == ResultTypePrefix + args {
      var args: string :| printed == ResultTypePrefix + args;
      ArgsRecognised(args);
    }
  }

  lemma RecognisedHasArgs(printed: string)
    requires IsResultType(printed)
    ensures printed == ResultTypePrefix + printed[|ResultTypePrefix|..]
  {
    assert printed[..|ResultTypePrefix|] == ResultTypePrefix;
  }

  lemma ArgsRecognised(args: string)
    ensures IsResultType(ResultTypePrefix + args)
  {
    assert (ResultTypePrefix + args)[..|ResultTypePrefix|] == ResultTypePrefix;
  }
}
