/**
 The expressions that the compiler translates, and what they mean.

 Evaluation is deterministic but open: every operation that may run foreign code (a metamethod,
 a global or table access) appends an event to the world, and the host answers it from the whole
 history so far. Two evaluations that agree therefore perform the same operations, on the same
 operands, the same number of times and in the same order.
 */
module LuaSource {

  /** A double, as far as the compiler looks into it. */
  datatype Number = Integral(value: int) | NegativeZero | NaN | Fraction(bits: nat)

  predicate IsZero(x: Number) {
    x == Integral(0) || x == NegativeZero
  }

  predicate NumberEq(x: Number, y: Number) {
    x != NaN && y != NaN && (x == y || (IsZero(x) && IsZero(y)))
  }

  datatype Const =
    | CNil
    | CBool(b: bool)
    | CNumber(n: Number)
    | CVector(x: Number, y: Number, z: Number, w: Number)
    | CString(s: string)

  /** Raw equality of primitive values; never calls back into the host. */
  predicate ConstEq(a: Const, b: Const) {
    match (a, b)
    case (CNumber(m), CNumber(n)) => NumberEq(m, n)
    case (CVector(_, _, _, _), CVector(_, _, _, _)) =>
      NumberEq(a.x, b.x) && NumberEq(a.y, b.y) && NumberEq(a.z, b.z) && NumberEq(a.w, b.w)
    case _ => a == b
  }

  datatype Value = Prim(c: Const) | Ref(id: nat)

  const NIL := Prim(CNil)

  predicate Truthful(c: Const) {
    c != CNil && c != CBool(false)
  }

  predicate Truthy(v: Value) {
    v.Ref? || Truthful(v.c)
  }

  datatype ArithOp = Add | Sub | Mul | Div | FloorDiv | Mod | Pow
  datatype CompareOp = Ne | Eq | Lt | Le | Gt | Ge
  datatype UnaryOp = Not | Minus | Len
  datatype BinaryOp = Arith(arith: ArithOp) | Concat | Compare(compare: CompareOp) | And | Or

  type LocalId = nat

  datatype Expr =
    | Literal(c: Const)
    | Local(local: LocalId)
    | Upvalue(slot: nat)
    | Global(name: string)
    | Group(inner: Expr)
    | Unary(uop: UnaryOp, operand: Expr)
    | Binary(bop: BinaryOp, left: Expr, right: Expr)
    | IfElse(cond: Expr, thenExpr: Expr, elseExpr: Expr)
    | IndexName(prefix: Expr, key: string)
    | IndexExpr(table: Expr, index: Expr)

  /** A measure that also bounds the operands of an unrolled concatenation. */
  ghost function Size(e: Expr): nat {
    match e
    case Group(x) => 1 + Size(x)
    case Unary(_, x) => 1 + Size(x)
    case Binary(_, l, r) => 1 + Size(l) + Size(r)
    case IfElse(c, t, f) => 1 + Size(c) + Size(t) + Size(f)
    case IndexName(x, _) => 1 + Size(x)
    case IndexExpr(x, i) => 1 + Size(x) + Size(i)
    case _ => 1
  }

  // ----- the host -----

  datatype Event =
    | EvArith(aop: ArithOp, a: Value, b: Value)
    | EvMinus(a: Value)
    | EvLen(a: Value)
    | EvConcat(a: Value, b: Value)
    | EvEq(a: Value, b: Value)
    | EvLess(a: Value, b: Value)
    | EvLessEq(a: Value, b: Value)
    | EvGetGlobal(name: string)
    | EvSetGlobal(name: string, v: Value)
    | EvSetUpvalue(slot: nat, v: Value)
    | EvGetTable(t: Value, k: Value)
    | EvSetTable(t: Value, k: Value, v: Value)

  type World = seq<Event>

  /**
   Arithmetic and order on numbers are pure but otherwise arbitrary. What an upvalue holds depends on what happened so far,
   but reading it is no event.
   */
  datatype Host = Host(
    answer: (World, Event) -> Value,
    upvalue: (World, nat) -> Value,
    arith: (ArithOp, Number, Number) -> Number,
    minus: Number -> Number,
    less: (Number, Number) -> bool,
    lessEq: (Number, Number) -> bool)

  function Ask(h: Host, w: World, ev: Event): (World, Value) {
    (w + [ev], h.answer(w, ev))
  }

  predicate IsNumber(v: Value) {
    v.Prim? && v.c.CNumber?
  }

  function ArithValue(h: Host, w: World, op: ArithOp, a: Value, b: Value): (World, Value) {
    if IsNumber(a) && IsNumber(b) then (w, Prim(CNumber(h.arith(op, a.c.n, b.c.n))))
    else Ask(h, w, EvArith(op, a, b))
  }

  function UnaryValue(h: Host, w: World, op: UnaryOp, a: Value): (World, Value) {
    match op
    case Not => (w, Prim(CBool(!Truthy(a))))
    case Minus => if IsNumber(a) then (w, Prim(CNumber(h.minus(a.c.n)))) else Ask(h, w, EvMinus(a))
    case Len => if a.Prim? && a.c.CString? then (w, Prim(CNumber(Integral(|a.c.s|)))) else Ask(h, w, EvLen(a))
  }

  function EqValue(h: Host, w: World, a: Value, b: Value): (World, bool) {
    if a.Prim? || b.Prim? then (w, a.Prim? && b.Prim? && ConstEq(a.c, b.c))
    else if a == b then (w, true)
    else var (w', v) := Ask(h, w, EvEq(a, b)); (w', Truthy(v))
  }

  function LessValue(h: Host, w: World, a: Value, b: Value): (World, bool) {
    if IsNumber(a) && IsNumber(b) then (w, h.less(a.c.n, b.c.n))
    else var (w', v) := Ask(h, w, EvLess(a, b)); (w', Truthy(v))
  }

  function LessEqValue(h: Host, w: World, a: Value, b: Value): (World, bool) {
    if IsNumber(a) && IsNumber(b) then (w, h.lessEq(a.c.n, b.c.n))
    else var (w', v) := Ask(h, w, EvLessEq(a, b)); (w', Truthy(v))
  }

  /** `a > b` and `a >= b` are defined by the swapped order, as the reference manual has it. */
  function CompareValue(h: Host, w: World, op: CompareOp, a: Value, b: Value): (World, bool) {
    match op
    case Eq => EqValue(h, w, a, b)
    case Ne => var (w', t) := EqValue(h, w, a, b); (w', !t)
    case Lt => LessValue(h, w, a, b)
    case Le => LessEqValue(h, w, a, b)
    case Gt => LessValue(h, w, b, a)
    case Ge => LessEqValue(h, w, b, a)
  }

  function ConcatValue(h: Host, w: World, a: Value, b: Value): (World, Value) {
    Ask(h, w, EvConcat(a, b))
  }

  // ----- evaluation -----

  type Env = map<LocalId, Value>

  function Eval(h: Host, env: Env, e: Expr, w: World): (World, Value) {
    match e
    case Literal(c) => (w, Prim(c))
    case Local(l) => (w, if l in env then env[l] else NIL)
    case Upvalue(u) => (w, h.upvalue(w, u))
    case Global(n) => Ask(h, w, EvGetGlobal(n))
    case Group(x) => Eval(h, env, x, w)
    case Unary(op, x) =>
      var (w1, v) := Eval(h, env, x, w);
      UnaryValue(h, w1, op, v)
    case Binary(And, l, r) =>
      var (w1, v) := Eval(h, env, l, w);
      if Truthy(v) then Eval(h, env, r, w1) else (w1, v)
    case Binary(Or, l, r) =>
      var (w1, v) := Eval(h, env, l, w);
      if Truthy(v) then (w1, v) else Eval(h, env, r, w1)
    case Binary(Arith(op), l, r) =>
      var (w1, a) := Eval(h, env, l, w);
      var (w2, b) := Eval(h, env, r, w1);
      ArithValue(h, w2, op, a, b)
    case Binary(Concat, l, r) =>
      var (w1, a) := Eval(h, env, l, w);
      var (w2, b) := Eval(h, env, r, w1);
      ConcatValue(h, w2, a, b)
    case Binary(Compare(op), l, r) =>
      var (w1, a) := Eval(h, env, l, w);
      var (w2, b) := Eval(h, env, r, w1);
      var (w3, t) := CompareValue(h, w2, op, a, b);
      (w3, Prim(CBool(t)))
    case IfElse(c, t, f) =>
      var (w1, v) := Eval(h, env, c, w);
      if Truthy(v) then Eval(h, env, t, w1) else Eval(h, env, f, w1)
    case IndexName(x, k) =>
      var (w1, t) := Eval(h, env, x, w);
      Ask(h, w1, EvGetTable(t, Prim(CString(k))))
    case IndexExpr(x, i) =>
      var (w1, t) := Eval(h, env, x, w);
      var (w2, k) := Eval(h, env, i, w1);
      Ask(h, w2, EvGetTable(t, k))
  }

  function EvalList(h: Host, env: Env, es: seq<Expr>, w: World): (r: (World, seq<Value>))
    ensures |r.1| == |es|
  {
    if es == [] then (w, [])
    else
      var (w1, v) := Eval(h, env, es[0], w);
      var (w2, vs) := EvalList(h, env, es[1..], w1);
      (w2, [v] + vs)
  }

  /** Concatenation of several operands is right associative. */
  function ConcatFold(h: Host, vs: seq<Value>, w: World): (World, Value)
    requires vs != []
  {
    if |vs| == 1 then (w, vs[0])
    else
      var (w1, v) := ConcatFold(h, vs[1..], w);
      ConcatValue(h, w1, vs[0], v)
  }

  /** A local that `e` reads. */
  predicate Mentions(e: Expr, l: LocalId) {
    match e
    case Local(m) => l == m
    case Group(x) => Mentions(x, l)
    case Unary(_, x) => Mentions(x, l)
    case Binary(_, x, y) => Mentions(x, l) || Mentions(y, l)
    case IfElse(c, t, f) => Mentions(c, l) || Mentions(t, l) || Mentions(f, l)
    case IndexName(x, _) => Mentions(x, l)
    case IndexExpr(x, i) => Mentions(x, l) || Mentions(i, l)
    case _ => false
  }

  /** Evaluation depends only on the locals that the expression mentions. */
  lemma {:induction false} EvalFrame(h: Host, env: Env, env': Env, e: Expr, w: World)
    requires forall l :: Mentions(e, l) ==> (l in env <==> l in env') && (l in env ==> env[l] == env'[l])
    ensures Eval(h, env, e, w) == Eval(h, env', e, w)
    decreases e
  {
    match e
    case Group(x) => EvalFrame(h, env, env', x, w);
    case Unary(_, x) => EvalFrame(h, env, env', x, w);
    case Binary(_, x, y) =>
      EvalFrame(h, env, env', x, w);
      EvalFrame(h, env, env', y, Eval(h, env, x, w).0);
    case IfElse(c, t, f) =>
      EvalFrame(h, env, env', c, w);
      var w1 := Eval(h, env, c, w).0;
      EvalFrame(h, env, env', t, w1);
      EvalFrame(h, env, env', f, w1);
    case IndexName(x, _) => EvalFrame(h, env, env', x, w);
    case IndexExpr(x, i) =>
      EvalFrame(h, env, env', x, w);
      EvalFrame(h, env, env', i, Eval(h, env, x, w).0);
    case _ =>
  }
}
