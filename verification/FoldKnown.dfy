/**
 From the constants that folding records to the code that is emitted with them: at every node of an expression without
 calls and functions the recorded constant is what the node evaluates to, which is all that the emitter relies on.
 */
module FoldKnown {
  import opened Results
  import L = LuaSource
  import F = FoldSource
  import S = FoldSpec
  import E = EmitSpec
  import P = EmitProof
  import V = RegisterVm

  /** The same expression without the identities of its nodes; calls and functions have no counterpart. */
  function Plain(m: F.Math, e: F.Expr): Option<L.Expr> {
    match e
    case Group(_, x) => var a :- Plain(m, x); Some(L.Group(a))
    case Literal(_, c) => Some(L.Literal(c))
    case LocalRef(_, x) => Some(L.Local(x))
    case Global(_, n) => Some(L.Global(n))
    case Index(id, t, k) => if id in m.builtins then None else var a :- Plain(m, t); var b :- Plain(m, k); Some(L.IndexExpr(a, b))
    case Unary(_, op, x) => var a :- Plain(m, x); Some(L.Unary(op, a))
    case Binary(_, op, x, y) => var a :- Plain(m, x); var b :- Plain(m, y); Some(L.Binary(op, a, b))
    case IfElse(_, c, t, f) => var a :- Plain(m, c); var b :- Plain(m, t); var d :- Plain(m, f); Some(L.IfElse(a, b, d))
    case TypeAssertion(_, x) => var a :- Plain(m, x); Some(L.Group(a))
    case _ => None
  }

  /** Folding computes as the running program does. */
  ghost predicate SameMath(m: F.Math, h: L.Host) {
    && m.arith == h.arith && m.neg == h.minus && m.lt == h.less && m.le == h.lessEq
    && forall s :: m.length(s) == L.Integral(|s|)
  }

  /** What is known of the locals is so. */
  ghost predicate Holds(ls: S.Locals, env: L.Env) {
    forall x <- ls :: S.Get(ls, x).Some? ==> x in env && env[x] == L.Prim(S.Get(ls, x).value)
  }

  lemma UnaryAgrees(m: F.Math, h: L.Host, op: L.UnaryOp, a: L.Const, w: L.World)
    requires SameMath(m, h) && S.FoldUnary(m, op, a).Some?
    ensures L.UnaryValue(h, w, op, L.Prim(a)) == (w, L.Prim(S.FoldUnary(m, op, a).value))
  {
  }

  lemma CompareAgrees(m: F.Math, h: L.Host, op: L.CompareOp, a: L.Const, b: L.Const, w: L.World)
    requires SameMath(m, h) && S.FoldBinary(m, L.Compare(op), a, Some(b)).Some?
    ensures L.Prim(L.CBool(L.CompareValue(h, w, op, L.Prim(a), L.Prim(b)).1)) == L.Prim(S.FoldBinary(m, L.Compare(op), a, Some(b)).value)
    ensures L.CompareValue(h, w, op, L.Prim(a), L.Prim(b)).0 == w
  {
  }

  /** An expression that folds evaluates to its constant, without asking the host. */
  lemma {:induction false} FoldedEvaluates(m: F.Math, h: L.Host, e: F.Expr, ls: S.Locals, env: L.Env, w: L.World)
    requires SameMath(m, h) && Holds(ls, env) && Plain(m, e).Some? && S.Fold(m, e, ls).Some?
    ensures L.Eval(h, env, Plain(m, e).value, w) == (w, L.Prim(S.Fold(m, e, ls).value))
    decreases e, 1
  {
    match e
    case Group(_, x) => FoldedEvaluates(m, h, x, ls, env, w);
    case Literal(_, _) =>
    case LocalRef(_, _) =>
    case Unary(_, op, x) =>
      FoldedEvaluates(m, h, x, ls, env, w);
      UnaryAgrees(m, h, op, S.Fold(m, x, ls).value, w);
    case TypeAssertion(_, x) => FoldedEvaluates(m, h, x, ls, env, w);
    case Binary(_, _, _, _) => FoldedBinary(m, h, e, ls, env, w);
    case IfElse(_, c, t, f) =>
      FoldedEvaluates(m, h, c, ls, env, w);
      FoldedEvaluates(m, h, if L.Truthful(S.Fold(m, c, ls).value) then t else f, ls, env, w);
  }

  lemma {:induction false} FoldedBinary(m: F.Math, h: L.Host, e: F.Expr, ls: S.Locals, env: L.Env, w: L.World)
    requires SameMath(m, h) && Holds(ls, env) && e.Binary? && Plain(m, e).Some? && S.Fold(m, e, ls).Some?
    ensures L.Eval(h, env, Plain(m, e).value, w) == (w, L.Prim(S.Fold(m, e, ls).value))
    decreases e, 0
  {
    FoldedEvaluates(m, h, e.left, ls, env, w);
    var a, b := S.Fold(m, e.left, ls).value, S.Fold(m, e.right, ls);
    if b.Some? {
      FoldedEvaluates(m, h, e.right, ls, env, w);
      if e.bop.Compare? {
        CompareAgrees(m, h, e.bop.compare, a, b.value, w);
      }
    }
  }

  // ----- the constants that the emitter is given -----

  type Known = map<L.Expr, L.Const>

  /** The recorded constants of all nodes of an expression, by what the node says. */
  function KnownOf(m: F.Math, ks: S.Constants, e: F.Expr): Known {
    var inner := match e
      case Group(_, x) => KnownOf(m, ks, x)
      case TypeAssertion(_, x) => KnownOf(m, ks, x)
      case Index(_, t, k) => KnownOf(m, ks, t) + KnownOf(m, ks, k)
      case Unary(_, _, x) => KnownOf(m, ks, x)
      case Binary(_, _, x, y) => KnownOf(m, ks, x) + KnownOf(m, ks, y)
      case IfElse(_, c, t, f) => KnownOf(m, ks, c) + KnownOf(m, ks, t) + KnownOf(m, ks, f)
      case _ => map[];
    if Plain(m, e).Some? && S.Get(ks, e.id).Some? then inner[Plain(m, e).value := S.Get(ks, e.id).value] else inner
  }

  ghost predicate Right(h: L.Host, env: L.Env, e: L.Expr, c: L.Const) {
    forall w :: L.Eval(h, env, e, w) == (w, L.Prim(c))
  }

  ghost predicate AllRight(h: L.Host, env: L.Env, known: Known) {
    forall e <- known :: Right(h, env, e, known[e])
  }

  lemma {:induction false} KnownIsRight(m: F.Math, h: L.Host, e: F.Expr, ks: S.Constants, ls: S.Locals, w: set<F.LocalId>, deep: bool, env: L.Env)
    requires SameMath(m, h) && Holds(ls, env) && Plain(m, e).Some? && S.FitsE(m, e, ks, ls, w, deep)
    ensures AllRight(h, env, KnownOf(m, ks, e))
    decreases e
  {
    match e {
      case Group(_, x) => KnownIsRight(m, h, x, ks, ls, w, deep, env);
      case TypeAssertion(_, x) => KnownIsRight(m, h, x, ks, ls, w, deep, env);
      case Index(_, t, k) =>
        KnownIsRight(m, h, t, ks, ls, w, deep, env);
        KnownIsRight(m, h, k, ks, ls, w, deep, env);
      case Unary(_, _, x) => KnownIsRight(m, h, x, ks, ls, w, deep, env);
      case Binary(_, _, x, y) =>
        KnownIsRight(m, h, x, ks, ls, w, deep, env);
        KnownIsRight(m, h, y, ks, ls, w, deep, env);
      case IfElse(_, c, t, f) =>
        KnownIsRight(m, h, c, ks, ls, w, deep, env);
        KnownIsRight(m, h, t, ks, ls, w, deep, env);
        KnownIsRight(m, h, f, ks, ls, w, deep, env);
      case Literal(_, _) =>
      case LocalRef(_, _) =>
      case Global(_, _) =>
    }
    if S.Get(ks, e.id).Some? {
      forall world ensures L.Eval(h, env, Plain(m, e).value, world) == (world, L.Prim(S.Get(ks, e.id).value)) {
        FoldedEvaluates(m, h, e, ls, env, world);
      }
      assert Right(h, env, Plain(m, e).value, S.Get(ks, e.id).value);
    }
  }

  lemma {:induction false} RightIsSound(c: E.Context, h: L.Host, env: L.Env, e: L.Expr)
    requires AllRight(h, env, c.known)
    ensures P.Sound(c, h, env, e)
    decreases e
  {
    if e in c.known {
      assert Right(h, env, e, c.known[e]);
    }
    match e
    case Group(x) => RightIsSound(c, h, env, x);
    case Unary(_, x) => RightIsSound(c, h, env, x);
    case Binary(_, x, y) =>
      RightIsSound(c, h, env, x);
      RightIsSound(c, h, env, y);
    case IfElse(x, y, z) =>
      RightIsSound(c, h, env, x);
      RightIsSound(c, h, env, y);
      RightIsSound(c, h, env, z);
    case IndexName(x, _) => RightIsSound(c, h, env, x);
    case IndexExpr(x, i) =>
      RightIsSound(c, h, env, x);
      RightIsSound(c, h, env, i);
    case Literal(_) =>
    case Local(_) =>
    case Upvalue(_) =>
    case Global(_) =>
  }

  /** Compiled with the recorded constants, an expression computes what it evaluates to. */
  lemma FoldedCodeCorrect(m: F.Math, e: F.Expr, ks: S.Constants, ls: S.Locals, written: set<F.LocalId>, deep: bool,
                          c: E.Context, s: E.Builder, target: nat, temp: bool, vm: P.Vm, env: L.Env, cfg: V.Config)
    requires SameMath(m, vm.host) && Holds(ls, env) && Plain(m, e).Some? && S.FitsE(m, e, ks, ls, written, deep)
    requires c.known == KnownOf(m, ks, e) && E.ExprCode(c, s, Plain(m, e).value, target, temp).Ok?
    requires
      var t := E.ExprCode(c, s, Plain(m, e).value, target, temp).value;
      && P.Placed(vm, s, t) && P.Ready(c, env, s, cfg, t.stackSize)
      && target < s.regTop && (temp ==> P.Free(c, target))
    ensures
      var t := E.ExprCode(c, s, Plain(m, e).value, target, temp).value;
      P.Computes(vm, cfg, |t.insns|, target, s.regTop, L.Eval(vm.host, env, Plain(m, e).value, cfg.world))
  {
    KnownIsRight(m, vm.host, e, ks, ls, written, deep, env);
    RightIsSound(c, vm.host, env, Plain(m, e).value);
    P.ExprCorrect(c, s, Plain(m, e).value, target, temp, vm, env, cfg);
  }
}
