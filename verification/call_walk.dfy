/**
 * The call-discovery walk of the current builder: which calls a function body contains,
 * in which order, whether each becomes an edge, and whether its result is forwarded to
 * the caller (by `?`, by `return`, or as the body's trailing value).
 */
module CallWalk {
  import opened Wrappers
  import opened Ids
  import opened Graph
  import opened Hir

  /** One discovered call: the callee's node kind, the call's HIR id, whether it becomes an edge, and whether it propagates. */
  datatype FoundCall = FoundCall(kind: NodeKind, callId: HirId, addEdge: bool, propagates: bool)

  /** The same calls with the propagation flag set, as for the operand of `?`, a `return` value or a function's tail. */
  function MarkPropagating(cs: seq<FoundCall>): (r: seq<FoundCall>)
    ensures |r| == |cs|
    ensures forall k | 0 <= k < |r| :: r[k] == cs[k].(propagates := true)
  {
    seq(|cs|, k requires 0 <= k < |cs| => cs[k].(propagates := true))
  }

  /** The same calls with the propagation flag cleared: what a call list says apart from propagation. */
  function Unflagged(cs: seq<FoundCall>): (r: seq<FoundCall>)
    ensures |r| == |cs|
    ensures forall k | 0 <= k < |r| :: r[k] == cs[k].(propagates := false)
  {
    seq(|cs|, k requires 0 <= k < |cs| => cs[k].(propagates := false))
  }

  lemma UnflaggedAppend(a: seq<FoundCall>, b: seq<FoundCall>)
    ensures Unflagged(a + b) == Unflagged(a) + Unflagged(b)
  {
  }

  predicate NonePropagate(cs: seq<FoundCall>)
  {
    forall c | c in cs :: !c.propagates
  }

  predicate AllPropagate(cs: seq<FoundCall>)
  {
    forall c | c in cs :: c.propagates
  }

  /** Definitions whose path, used as a value, is a reference to something callable. */
  predicate AddsEdge(k: DefKind)
  {
    k == FnKind || k == CtorKind || k == AssocFnKind || k == ClosureKind
  }

  /** `get_node_kind_from_path`: type-relative paths are resolved through their qualifying type. */
  function NodeKindFromPath(ctx: Ctx, qp: QPath): Option<(NodeKind, bool)>
    decreases qp
  {
    match qp
    case Resolved(res) =>
      if res.Def? then Some((NodeKindOfDefId(ctx, res.id), AddsEdge(res.defKind))) else None
    case TypeRelative(ty) =>
      if ty.PathTy? then NodeKindFromPath(ctx, ty.path) else None
    case LangItem => None
  }

  /** The callee of a call expression: MIR's answer first, else the callee's path; always an edge. */
  function CalleeOfCall(ctx: Ctx, id: HirId, callee: Expr): seq<FoundCall>
  {
    match ctx.mirCallee(id)
    case Some(d) => [FoundCall(NodeKindOfDefId(ctx, d), id, true, false)]
    case None =>
      if callee.kind.PathExpr? then
        match NodeKindFromPath(ctx, callee.kind.qpath)
        case Some(p) => [FoundCall(p.0, id, true, false)]
        case None => []
      else []
  }

  /** The callee of a method call: MIR's answer first, else the type-dependent definition. */
  function CalleeOfMethodCall(ctx: Ctx, id: HirId): seq<FoundCall>
  {
    match ctx.mirCallee(id)
    case Some(d) => [FoundCall(NodeKindOfDefId(ctx, d), id, true, false)]
    case None =>
      match ctx.typeDependentDef(id)
      case Some(d) => [FoundCall(NodeKindOfDefId(ctx, d), id, true, false)]
      case None => []
  }

  /**
   * `get_function_calls_in_block`: the trailing expression first (its calls propagate when the
   * block is a function body), then the statements. A trailing `DropTemps` around a block is
   * looked through, replacing the whole walk; any other trailing `DropTemps` is skipped.
   */
  function CallsInBlock(ctx: Ctx, b: Block, isFn: bool): seq<FoundCall>
    decreases b
  {
    match b.expr
    case Some(tail) =>
      if tail.kind.DropTemps? then
        if tail.kind.operand.kind.BlockExpr? then CallsInBlock(ctx, tail.kind.operand.kind.block, isFn)
        else CallsInStmts(ctx, b.stmts)
      else
        (if isFn then MarkPropagating(CallsInExpr(ctx, tail)) else CallsInExpr(ctx, tail))
        + CallsInStmts(ctx, b.stmts)
    case None => CallsInStmts(ctx, b.stmts)
  }

  function CallsInStmts(ctx: Ctx, ss: seq<Stmt>): seq<FoundCall>
    decreases ss
  {
    if ss == [] then [] else CallsInStmt(ctx, ss[0]) + CallsInStmts(ctx, ss[1..])
  }

  function CallsInStmt(ctx: Ctx, s: Stmt): seq<FoundCall>
    decreases s
  {
    match s
    case LetStmt(init) => CallsInOptExpr(ctx, init)
    case ItemStmt => []
    case ExprStmt(x) => CallsInExpr(ctx, x)
    case SemiStmt(x) => CallsInExpr(ctx, x)
  }

  function CallsInOptExpr(ctx: Ctx, oe: Option<Expr>): seq<FoundCall>
    decreases oe
  {
    match oe
    case Some(x) => CallsInExpr(ctx, x)
    case None => []
  }

  function CallsInExprs(ctx: Ctx, es: seq<Expr>): seq<FoundCall>
    decreases es
  {
    if es == [] then [] else CallsInExpr(ctx, es[0]) + CallsInExprs(ctx, es[1..])
  }

  /** `get_function_calls_in_expression`. */
  function CallsInExpr(ctx: Ctx, e: Expr): seq<FoundCall>
    decreases e
  {
    match e.kind
    case Call(callee, args) => CalleeOfCall(ctx, e.id, callee) + CallsInExprs(ctx, args)
    case MethodCall(receiver, args) =>
      CalleeOfMethodCall(ctx, e.id) + CallsInExpr(ctx, receiver) + CallsInExprs(ctx, args)
    case Match(scrutinee, arms, source) =>
      if source == TryDesugar then MarkPropagating(CallsInExpr(ctx, scrutinee))
      else CallsInExpr(ctx, scrutinee) + CallsInArms(ctx, arms)
    case Closure(d, _) => [FoundCall(LocalFn(d, ctx.localHirId(d)), e.id, false, false)]
    case ConstBlock(b) => CallsInBlock(ctx, b, false)
    case Array(es) => CallsInExprs(ctx, es)
    case Tup(es) => CallsInExprs(ctx, es)
    case Binary(a, b) => CallsInExpr(ctx, a) + CallsInExpr(ctx, b)
    case Unary(x) => CallsInExpr(ctx, x)
    case Lit => []
    case Cast(x) => CallsInExpr(ctx, x)
    case TypeAscription(x) => CallsInExpr(ctx, x)
    case DropTemps(x) => CallsInExpr(ctx, x)
    case Become(x) => CallsInExpr(ctx, x)
    case LetExpr(x) => CallsInExpr(ctx, x)
    case If(c, t, el) => CallsInExpr(ctx, c) + CallsInExpr(ctx, t) + CallsInOptExpr(ctx, el)
    case Loop(b) => CallsInBlock(ctx, b, false)
    case BlockExpr(b) => CallsInBlock(ctx, b, false)
    case Assign(a, b) => CallsInExpr(ctx, a) + CallsInExpr(ctx, b)
    case AssignOp(a, b) => CallsInExpr(ctx, a) + CallsInExpr(ctx, b)
    case Field(x) => CallsInExpr(ctx, x)
    case Index(a, b) => CallsInExpr(ctx, a) + CallsInExpr(ctx, b)
    case PathExpr(qp) =>
      (match NodeKindFromPath(ctx, qp)
       case Some(p) => [FoundCall(p.0, e.id, p.1, false)]
       case None => [])
    case AddrOf(x) => CallsInExpr(ctx, x)
    case Break(v) => CallsInOptExpr(ctx, v)
    case Continue => []
    case Ret(v) => MarkPropagating(CallsInOptExpr(ctx, v))
    case InlineAsm => []
    case OffsetOf => []
    case Struct(fields, base) => CallsInExprs(ctx, fields) + CallsInOptExpr(ctx, base)
    case Repeat(x) => CallsInExpr(ctx, x)
    case Yield(x) => CallsInExpr(ctx, x)
    case ErrExpr => []
  }

  function CallsInArms(ctx: Ctx, arms: seq<Arm>): seq<FoundCall>
    decreases arms
  {
    if arms == [] then [] else CallsInArm(ctx, arms[0]) + CallsInArms(ctx, arms[1..])
  }

  /** An arm: its body, then its guard, then its pattern. */
  function CallsInArm(ctx: Ctx, a: Arm): seq<FoundCall>
    decreases a
  {
    CallsInExpr(ctx, a.body) + CallsInOptExpr(ctx, a.guard) + CallsInPat(ctx, a.pat)
  }

  /** `get_function_calls_in_pattern`: only literal patterns and range bounds hold expressions. */
  function CallsInPat(ctx: Ctx, p: Pat): seq<FoundCall>
    decreases p
  {
    match p
    case WildPat => []
    case NeverPat => []
    case BindingPat(sub) => CallsInOptPat(ctx, sub)
    case StructPat(ps) => CallsInPats(ctx, ps)
    case TupleStructPat(ps) => CallsInPats(ctx, ps)
    case OrPat(ps) => CallsInPats(ctx, ps)
    case PathPat => []
    case TuplePat(ps) => CallsInPats(ctx, ps)
    case BoxPat(q) => CallsInPat(ctx, q)
    case DerefPat(q) => CallsInPat(ctx, q)
    case RefPat(q) => CallsInPat(ctx, q)
    case LitPat(x) => CallsInExpr(ctx, x)
    case RangePat(lo, hi) => CallsInOptExpr(ctx, lo) + CallsInOptExpr(ctx, hi)
    case SlicePat(bs, m, afters) => CallsInPats(ctx, bs) + CallsInOptPat(ctx, m) + CallsInPats(ctx, afters)
    case ErrPat => []
  }

  function CallsInOptPat(ctx: Ctx, op: Option<Pat>): seq<FoundCall>
    decreases op
  {
    match op
    case Some(q) => CallsInPat(ctx, q)
    case None => []
  }

  function CallsInPats(ctx: Ctx, ps: seq<Pat>): seq<FoundCall>
    decreases ps
  {
    if ps == [] then [] else CallsInPat(ctx, ps[0]) + CallsInPats(ctx, ps[1..])
  }

  // ---------------------------------------------------------------------------------------
  // Where an error can be forwarded: a `?` or a `return` with a value, anywhere in the code
  // except inside a nested closure's body (a different function).
  // ---------------------------------------------------------------------------------------

  predicate ForwardsInExpr(e: Expr)
    decreases e
  {
    match e.kind
    case Call(callee, args) => ForwardsInExpr(callee) || exists x | x in args :: ForwardsInExpr(x)
    case MethodCall(receiver, args) => ForwardsInExpr(receiver) || exists x | x in args :: ForwardsInExpr(x)
    case Match(scrutinee, arms, source) =>
      source == TryDesugar || ForwardsInExpr(scrutinee) || exists a | a in arms :: ForwardsInArm(a)
    case Closure(_, _) => false
    case ConstBlock(b) => ForwardsInBlock(b)
    case Array(es) => exists x | x in es :: ForwardsInExpr(x)
    case Tup(es) => exists x | x in es :: ForwardsInExpr(x)
    case Binary(a, b) => ForwardsInExpr(a) || ForwardsInExpr(b)
    case Unary(x) => ForwardsInExpr(x)
    case Lit => false
    case Cast(x) => ForwardsInExpr(x)
    case TypeAscription(x) => ForwardsInExpr(x)
    case DropTemps(x) => ForwardsInExpr(x)
    case Become(x) => ForwardsInExpr(x)
    case LetExpr(x) => ForwardsInExpr(x)
    case If(c, t, el) => ForwardsInExpr(c) || ForwardsInExpr(t) || ForwardsInOptExpr(el)
    case Loop(b) => ForwardsInBlock(b)
    case BlockExpr(b) => ForwardsInBlock(b)
    case Assign(a, b) => ForwardsInExpr(a) || ForwardsInExpr(b)
    case AssignOp(a, b) => ForwardsInExpr(a) || ForwardsInExpr(b)
    case Field(x) => ForwardsInExpr(x)
    case Index(a, b) => ForwardsInExpr(a) || ForwardsInExpr(b)
    case PathExpr(_) => false
    case AddrOf(x) => ForwardsInExpr(x)
    case Break(v) => ForwardsInOptExpr(v)
    case Continue => false
    case Ret(v) => v.Some?
    case InlineAsm => false
    case OffsetOf => false
    case Struct(fields, base) => (exists x | x in fields :: ForwardsInExpr(x)) || ForwardsInOptExpr(base)
    case Repeat(x) => ForwardsInExpr(x)
    case Yield(x) => ForwardsInExpr(x)
    case ErrExpr => false
  }

  predicate ForwardsInOptExpr(oe: Option<Expr>)
    decreases oe
  {
    oe.Some? && ForwardsInExpr(oe.value)
  }

  predicate ForwardsInBlock(b: Block)
    decreases b
  {
    ForwardsInOptExpr(b.expr) || exists s | s in b.stmts :: ForwardsInStmt(s)
  }

  predicate ForwardsInStmt(s: Stmt)
    decreases s
  {
    match s
    case LetStmt(init) => ForwardsInOptExpr(init)
    case ItemStmt => false
    case ExprStmt(x) => ForwardsInExpr(x)
    case SemiStmt(x) => ForwardsInExpr(x)
  }

  predicate ForwardsInArm(a: Arm)
    decreases a
  {
    ForwardsInPat(a.pat) || ForwardsInOptExpr(a.guard) || ForwardsInExpr(a.body)
  }

  predicate ForwardsInPat(p: Pat)
    decreases p
  {
    match p
    case WildPat => false
    case NeverPat => false
    case BindingPat(sub) => sub.Some? && ForwardsInPat(sub.value)
    case StructPat(ps) => exists q | q in ps :: ForwardsInPat(q)
    case TupleStructPat(ps) => exists q | q in ps :: ForwardsInPat(q)
    case OrPat(ps) => exists q | q in ps :: ForwardsInPat(q)
    case PathPat => false
    case TuplePat(ps) => exists q | q in ps :: ForwardsInPat(q)
    case BoxPat(q) => ForwardsInPat(q)
    case DerefPat(q) => ForwardsInPat(q)
    case RefPat(q) => ForwardsInPat(q)
    case LitPat(x) => ForwardsInExpr(x)
    case RangePat(lo, hi) => ForwardsInOptExpr(lo) || ForwardsInOptExpr(hi)
    case SlicePat(bs, m, afters) =>
      (exists q | q in bs :: ForwardsInPat(q)) || (m.Some? && ForwardsInPat(m.value))
      || (exists q | q in afters :: ForwardsInPat(q))
    case ErrPat => false
  }

  // ---------------------------------------------------------------------------------------
  // Propagation is caused only by forwarding: code without `?` or `return <value>` yields
  // calls none of which is marked as propagating (outside a function's trailing expression).
  // ---------------------------------------------------------------------------------------

  predicate HasOneOperand(k: ExprKind)
  {
    k.Unary? || k.Cast? || k.TypeAscription? || k.DropTemps? || k.Become? || k.LetExpr?
    || k.Field? || k.AddrOf? || k.Repeat? || k.Yield?
  }

  predicate HasTwoOperands(k: ExprKind)
  {
    k.Binary? || k.Assign? || k.AssignOp? || k.Index?
  }

  lemma {:induction false} ExprNoForwarding(ctx: Ctx, e: Expr)
    requires !ForwardsInExpr(e)
    ensures NonePropagate(CallsInExpr(ctx, e))
    decreases e, 1
  {
    if HasOneOperand(e.kind) {
      ExprNoForwarding(ctx, e.kind.operand);
      OneOperandCalls(ctx, e);
    } else if HasTwoOperands(e.kind) {
      ExprNoForwarding(ctx, e.kind.lhs);
      ExprNoForwarding(ctx, e.kind.rhs);
      TwoOperandCalls(ctx, e);
    } else {
      CompoundNoForwarding(ctx, e);
    }
  }

  /** An expression with one operand has exactly its operand's calls. */
  lemma OneOperandCalls(ctx: Ctx, e: Expr)
    requires HasOneOperand(e.kind)
    ensures CallsInExpr(ctx, e) == CallsInExpr(ctx, e.kind.operand)
    ensures ForwardsInExpr(e) == ForwardsInExpr(e.kind.operand)
  {
    match e.kind
    case Unary(_) =>
    case Cast(_) =>
    case TypeAscription(_) =>
    case DropTemps(_) =>
    case Become(_) =>
    case LetExpr(_) =>
    case Field(_) =>
    case AddrOf(_) =>
    case Repeat(_) =>
    case Yield(_) =>
  }

  /** An expression with two operands has the calls of the left one, then of the right one. */
  lemma TwoOperandCalls(ctx: Ctx, e: Expr)
    requires HasTwoOperands(e.kind)
    ensures CallsInExpr(ctx, e) == CallsInExpr(ctx, e.kind.lhs) + CallsInExpr(ctx, e.kind.rhs)
    ensures ForwardsInExpr(e) == (ForwardsInExpr(e.kind.lhs) || ForwardsInExpr(e.kind.rhs))
  {
    match e.kind
    case Binary(_, _) =>
    case Assign(_, _) =>
    case AssignOp(_, _) =>
    case Index(_, _) =>
  }

  lemma {:induction false} CompoundNoForwarding(ctx: Ctx, e: Expr)
    requires !HasOneOperand(e.kind) && !HasTwoOperands(e.kind)
    requires !ForwardsInExpr(e)
    ensures NonePropagate(CallsInExpr(ctx, e))
    decreases e, 0
  {
    match e.kind
    case Call(callee, args) => ExprsNoForwarding(ctx, args);
    case MethodCall(receiver, args) => ExprNoForwarding(ctx, receiver); ExprsNoForwarding(ctx, args);
    case Match(scrutinee, arms, source) => ExprNoForwarding(ctx, scrutinee); ArmsNoForwarding(ctx, arms);
    case ConstBlock(b) => BlockNoForwarding(ctx, b);
    case Array(es) => ExprsNoForwarding(ctx, es);
    case Tup(es) => ExprsNoForwarding(ctx, es);
    case If(c, t, el) => ExprNoForwarding(ctx, c); ExprNoForwarding(ctx, t); OptExprNoForwarding(ctx, el);
    case Loop(b) => BlockNoForwarding(ctx, b);
    case BlockExpr(b) => BlockNoForwarding(ctx, b);
    case Break(v) => OptExprNoForwarding(ctx, v);
    case Struct(fields, base) => ExprsNoForwarding(ctx, fields); OptExprNoForwarding(ctx, base);
    case _ =>
  }

  lemma {:induction false} OptExprNoForwarding(ctx: Ctx, oe: Option<Expr>)
    requires !ForwardsInOptExpr(oe)
    ensures NonePropagate(CallsInOptExpr(ctx, oe))
    decreases oe
  {
    if oe.Some? {
      ExprNoForwarding(ctx, oe.value);
    }
  }

  lemma {:induction false} ExprsNoForwarding(ctx: Ctx, es: seq<Expr>)
    requires forall x | x in es :: !ForwardsInExpr(x)
    ensures NonePropagate(CallsInExprs(ctx, es))
    decreases es
  {
    if es != [] {
      ExprNoForwarding(ctx, es[0]);
      ExprsNoForwarding(ctx, es[1..]);
    }
  }

  /** A block that is not a function body, with no forwarding inside, yields no propagating call. */
  lemma {:induction false} BlockNoForwarding(ctx: Ctx, b: Block)
    requires !ForwardsInBlock(b)
    ensures NonePropagate(CallsInBlock(ctx, b, false))
    decreases b
  {
    StmtsNoForwarding(ctx, b.stmts);
    match b.expr
    case Some(tail) =>
      if tail.kind.DropTemps? {
        if tail.kind.operand.kind.BlockExpr? {
          var inner := tail.kind.operand;
          assert !ForwardsInExpr(tail);
          assert !ForwardsInExpr(inner);
          BlockNoForwarding(ctx, tail.kind.operand.kind.block);
        }
      } else {
        ExprNoForwarding(ctx, tail);
      }
    case None =>
  }

  lemma {:induction false} StmtsNoForwarding(ctx: Ctx, ss: seq<Stmt>)
    requires forall s | s in ss :: !ForwardsInStmt(s)
    ensures NonePropagate(CallsInStmts(ctx, ss))
    decreases ss
  {
    if ss != [] {
      assert ss[0] in ss;
      StmtNoForwarding(ctx, ss[0]);
      StmtsNoForwarding(ctx, ss[1..]);
    }
  }

  lemma {:induction false} StmtNoForwarding(ctx: Ctx, s: Stmt)
    requires !ForwardsInStmt(s)
    ensures NonePropagate(CallsInStmt(ctx, s))
    decreases s
  {
    match s
    case LetStmt(init) => OptExprNoForwarding(ctx, init);
    case ItemStmt =>
    case ExprStmt(x) => ExprNoForwarding(ctx, x);
    case SemiStmt(x) => ExprNoForwarding(ctx, x);
  }

  lemma {:induction false} ArmsNoForwarding(ctx: Ctx, arms: seq<Arm>)
    requires forall a | a in arms :: !ForwardsInArm(a)
    ensures NonePropagate(CallsInArms(ctx, arms))
    decreases arms
  {
    if arms != [] {
      assert arms[0] in arms;
      ArmNoForwarding(ctx, arms[0]);
      ArmsNoForwarding(ctx, arms[1..]);
    }
  }

  lemma {:induction false} ArmNoForwarding(ctx: Ctx, a: Arm)
    requires !ForwardsInArm(a)
    ensures NonePropagate(CallsInArm(ctx, a))
    decreases a
  {
    ExprNoForwarding(ctx, a.body);
    OptExprNoForwarding(ctx, a.guard);
    PatNoForwarding(ctx, a.pat);
  }

  lemma {:induction false} PatNoForwarding(ctx: Ctx, p: Pat)
    requires !ForwardsInPat(p)
    ensures NonePropagate(CallsInPat(ctx, p))
    decreases p
  {
    match p
    case WildPat =>
    case NeverPat =>
    case BindingPat(sub) => OptPatNoForwarding(ctx, sub);
    case StructPat(ps) => PatsNoForwarding(ctx, ps);
    case TupleStructPat(ps) => PatsNoForwarding(ctx, ps);
    case OrPat(ps) => PatsNoForwarding(ctx, ps);
    case PathPat =>
    case TuplePat(ps) => PatsNoForwarding(ctx, ps);
    case BoxPat(q) => PatNoForwarding(ctx, q);
    case DerefPat(q) => PatNoForwarding(ctx, q);
    case RefPat(q) => PatNoForwarding(ctx, q);
    case LitPat(x) => ExprNoForwarding(ctx, x);
    case RangePat(lo, hi) => OptExprNoForwarding(ctx, lo); OptExprNoForwarding(ctx, hi);
    case SlicePat(bs, m, afters) =>
      PatsNoForwarding(ctx, bs); OptPatNoForwarding(ctx, m); PatsNoForwarding(ctx, afters);
    case ErrPat =>
  }

  lemma {:induction false} OptPatNoForwarding(ctx: Ctx, op: Option<Pat>)
    requires !(op.Some? && ForwardsInPat(op.value))
    ensures NonePropagate(CallsInOptPat(ctx, op))
    decreases op
  {
    if op.Some? {
      PatNoForwarding(ctx, op.value);
    }
  }

  lemma {:induction false} PatsNoForwarding(ctx: Ctx, ps: seq<Pat>)
    requires forall q | q in ps :: !ForwardsInPat(q)
    ensures NonePropagate(CallsInPats(ctx, ps))
    decreases ps
  {
    if ps != [] {
      PatNoForwarding(ctx, ps[0]);
      PatsNoForwarding(ctx, ps[1..]);
    }
  }

  // ---------------------------------------------------------------------------------------
  // What the forwarding constructs do.
  // ---------------------------------------------------------------------------------------

  /**
   * `e?`: every call in the operand propagates, the calls are those of the operand, and the
   * desugared match arms are never looked at.
   */
  lemma TryPropagatesOperandCalls(ctx: Ctx, id: HirId, operand: Expr, arms1: seq<Arm>, arms2: seq<Arm>)
    ensures AllPropagate(CallsInExpr(ctx, Expr(id, Match(operand, arms1, TryDesugar))))
    ensures Unflagged(CallsInExpr(ctx, Expr(id, Match(operand, arms1, TryDesugar))))
         == Unflagged(CallsInExpr(ctx, operand))
    ensures CallsInExpr(ctx, Expr(id, Match(operand, arms1, TryDesugar)))
         == CallsInExpr(ctx, Expr(id, Match(operand, arms2, TryDesugar)))
  {
  }

  /** `return v`: every call in `v` propagates; `return` without a value yields nothing. */
  lemma ReturnPropagatesValueCalls(ctx: Ctx, id: HirId, v: Option<Expr>)
    ensures AllPropagate(CallsInExpr(ctx, Expr(id, Ret(v))))
    ensures Unflagged(CallsInExpr(ctx, Expr(id, Ret(v)))) == Unflagged(CallsInOptExpr(ctx, v))
    ensures v.None? ==> CallsInExpr(ctx, Expr(id, Ret(v))) == []
  {
  }

  /** A closure is one call-free reference to a local function; its body is not walked here. */
  lemma ClosureNotWalked(ctx: Ctx, id: HirId, d: DefId, body1: Expr, body2: Expr)
    ensures CallsInExpr(ctx, Expr(id, Closure(d, body1))) == CallsInExpr(ctx, Expr(id, Closure(d, body2)))
    ensures var r := CallsInExpr(ctx, Expr(id, Closure(d, body1)));
      |r| == 1 && r[0].kind.LocalFn? && r[0].kind.def == d && r[0].callId == id
      && !r[0].addEdge && !r[0].propagates
  {
  }

  /**
   * When MIR names the callee of a call, the callee expression is irrelevant: the call comes
   * first, as an edge to that definition, followed by the calls in the arguments.
   */
  lemma MirCalleeTakesPrecedence(ctx: Ctx, id: HirId, callee1: Expr, callee2: Expr, args: seq<Expr>, d: DefId)
    requires ctx.mirCallee(id) == Some(d)
    ensures CallsInExpr(ctx, Expr(id, Call(callee1, args))) == CallsInExpr(ctx, Expr(id, Call(callee2, args)))
    ensures var r := CallsInExpr(ctx, Expr(id, Call(callee1, args)));
      |r| >= 1 && r[0] == FoundCall(NodeKindOfDefId(ctx, d), id, true, false) && r[1..] == CallsInExprs(ctx, args)
  {
  }

  /**
   * A path used as a value (a function passed as an argument, say) becomes a node, but an edge
   * only when it names a function, constructor, associated function or closure; a path in callee
   * position always becomes an edge.
   */
  lemma PathAddsEdgeOnlyForCallables(ctx: Ctx, id: HirId, callId: HirId, k: DefKind, d: DefId, args: seq<Expr>)
    requires ctx.mirCallee(callId).None?
    ensures CallsInExpr(ctx, Expr(id, PathExpr(Resolved(Def(k, d)))))
         == [FoundCall(NodeKindOfDefId(ctx, d), id, AddsEdge(k), false)]
    ensures CallsInExpr(ctx, Expr(callId, Call(Expr(id, PathExpr(Resolved(Def(k, d)))), args)))
         == [FoundCall(NodeKindOfDefId(ctx, d), callId, true, false)] + CallsInExprs(ctx, args)
  {
  }

  /** Type-relative paths (`Type::assoc`) are resolved through the qualifying path, at any depth. */
  lemma TypeRelativeResolvesThroughQualifier(ctx: Ctx, qp: QPath)
    ensures NodeKindFromPath(ctx, TypeRelative(PathTy(qp))) == NodeKindFromPath(ctx, qp)
    ensures NodeKindFromPath(ctx, TypeRelative(OtherTy)).None?
  {
  }

  // ---------------------------------------------------------------------------------------
  // Function bodies: the trailing expression is the return value.
  // ---------------------------------------------------------------------------------------

  lemma UnflaggedMarkPropagating(cs: seq<FoundCall>)
    ensures Unflagged(MarkPropagating(cs)) == Unflagged(cs)
  {
  }

  /**
   * Walking a block as a function body finds the same calls, in the same order, as walking it
   * as an inner block; the only difference is that more of them may be marked as propagating.
   */
  lemma {:induction false} FnBodyOnlyAddsPropagation(ctx: Ctx, b: Block)
    ensures |CallsInBlock(ctx, b, true)| == |CallsInBlock(ctx, b, false)|
    ensures Unflagged(CallsInBlock(ctx, b, true)) == Unflagged(CallsInBlock(ctx, b, false))
    ensures forall k | 0 <= k < |CallsInBlock(ctx, b, false)| ::
      CallsInBlock(ctx, b, false)[k].propagates ==> CallsInBlock(ctx, b, true)[k].propagates
    decreases b
  {
    match b.expr
    case Some(tail) =>
      if tail.kind.DropTemps? {
        if tail.kind.operand.kind.BlockExpr? {
          FnBodyOnlyAddsPropagation(ctx, tail.kind.operand.kind.block);
        }
      } else {
        var t := CallsInExpr(ctx, tail);
        var ss := CallsInStmts(ctx, b.stmts);
        UnflaggedAppend(MarkPropagating(t), ss);
        UnflaggedAppend(t, ss);
        UnflaggedMarkPropagating(t);
      }
    case None =>
  }

  /**
   * In a function body free of `?` and `return <value>` whose trailing expression is an ordinary
   * expression, a found call propagates exactly when it comes from the trailing expression, and
   * those calls come first.
   */
  lemma FnBodyPropagatesExactlyTail(ctx: Ctx, b: Block)
    requires b.expr.Some? && !b.expr.value.kind.DropTemps?
    requires !ForwardsInBlock(b)
    ensures var r := CallsInBlock(ctx, b, true);
      var n := |CallsInExpr(ctx, b.expr.value)|;
      n <= |r| && forall k | 0 <= k < |r| :: r[k].propagates <==> k < n
  {
    ExprNoForwarding(ctx, b.expr.value);
    StmtsNoForwarding(ctx, b.stmts);
    var t := CallsInExpr(ctx, b.expr.value);
    var ss := CallsInStmts(ctx, b.stmts);
    var r := CallsInBlock(ctx, b, true);
    assert r == MarkPropagating(t) + ss;
    forall k | 0 <= k < |r|
      ensures r[k].propagates <==> k < |t|
    {
      if k >= |t| {
        assert r[k] == ss[k - |t|];
        assert r[k] in ss;
      }
    }
  }
}
