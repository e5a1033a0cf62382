/** Recorded constants are what running the program gives, closures and host included. */
module FoldProof {
  import opened Results
  import L = LuaSource
  import opened FoldSource
  import opened FoldSpec

  // ----- a folded expression has its value, and no effect -----

  /** What is known of the locals in scope is so. */
  ghost predicate Holds(ls: Locals, env: Env, st: State) {
    forall x <- env :: env[x] < |st.cells| && (Get(ls, x).Some? ==> st.cells[env[x]].value == Prim(Get(ls, x).value))
  }

  ghost predicate OnlyLogged(st: State, st': State) {
    st'.cells == st.cells && st'.closures == st.closures
  }

  ghost predicate Yields(st: State, r: Res, c: L.Const) {
    OnlyLogged(st, r.st) && (r.Done? ==> r.vals == [Prim(c)])
  }

  /** All locals that evaluating a foldable expression may read are in scope. */
  predicate InScope(e: Expr, env: Env) {
    match e
    case Group(_, x) => InScope(x, env)
    case LocalRef(_, x) => x in env
    case Unary(_, _, x) => InScope(x, env)
    case Binary(_, _, l, r) => InScope(l, env) && InScope(r, env)
    case IfElse(_, c, t, f) => InScope(c, env) && InScope(t, env) && InScope(f, env)
    case TypeAssertion(_, x) => InScope(x, env)
    case Call(_, _, args) => AllInScope(args, env)
    case _ => true
  }

  predicate AllInScope(es: Exprs, env: Env) {
    es.MoreExprs? ==> InScope(es.head, env) && AllInScope(es.tail, env)
  }

  lemma LoggedYields(st: State, r: Res, c: L.Const, direct: bool, id: NodeId)
    requires Yields(st, r, c)
    ensures Yields(st, Logged(One(r), direct, id), c)
  {
  }

  lemma UnaryAgrees(m: Math, op: L.UnaryOp, arg: L.Const)
    requires FoldUnary(m, op, arg).Some?
    ensures UnaryValue(m, op, Prim(arg)) == Some(Prim(FoldUnary(m, op, arg).value))
  {
  }

  lemma BinaryAgrees(m: Math, op: L.BinaryOp, la: L.Const, ra: L.Const)
    requires !op.And? && !op.Or? && FoldBinary(m, op, la, Some(ra)).Some?
    ensures BinaryValue(m, op, Prim(la), Prim(ra)) == Some(Prim(FoldBinary(m, op, la, Some(ra)).value))
  {
  }

  /** Evaluating an expression that folds to a constant gives that constant, and has no effect; in scope, it does not stop. */
  lemma {:induction false} ConstantEvaluates(h: Host, e: Expr, ls: Locals, env: Env, st: State, direct: bool, fuel: nat)
    requires Holds(ls, env, st) && Fold(h.math, e, ls).Some?
    ensures Yields(st, Eval(h, e, env, st, direct, fuel), Fold(h.math, e, ls).value)
    ensures InScope(e, env) ==> Eval(h, e, env, st, direct, fuel).Done?
    decreases e, 2
  {
    ConstantRaw(h, e, ls, env, st, direct, fuel);
    LoggedYields(st, EvalRaw(h, e, env, st, direct, fuel), Fold(h.math, e, ls).value, direct, e.id);
  }

  lemma {:induction false} ConstantRaw(h: Host, e: Expr, ls: Locals, env: Env, st: State, direct: bool, fuel: nat)
    requires Holds(ls, env, st) && Fold(h.math, e, ls).Some?
    ensures Yields(st, EvalRaw(h, e, env, st, direct, fuel), Fold(h.math, e, ls).value)
    ensures InScope(e, env) ==> EvalRaw(h, e, env, st, direct, fuel).Done?
    decreases e, 1
  {
    match e
    case Group(_, x) => ConstantEvaluates(h, x, ls, env, st, direct, fuel);
    case Unary(_, op, x) =>
      ConstantEvaluates(h, x, ls, env, st, direct, fuel);
      UnaryAgrees(h.math, op, Fold(h.math, x, ls).value);
    case Binary(_, op, l, r) => ConstantBinary(h, e, op, l, r, ls, env, st, direct, fuel);
    case IfElse(_, c, t, f) =>
      ConstantEvaluates(h, c, ls, env, st, direct, fuel);
      var a := Eval(h, c, env, st, direct, fuel);
      ConstantEvaluates(h, if L.Truthful(Fold(h.math, c, ls).value) then t else f, ls, env, a.st, direct, fuel);
    case TypeAssertion(_, x) => ConstantEvaluates(h, x, ls, env, st, direct, fuel);
    case Call(_, _, args) => ConstantCall(h, e, args, ls, env, st, direct, fuel);
    case _ =>
  }

  /** A call to a built-in function with constant arguments. */
  lemma {:induction false} ConstantCall(h: Host, e: Expr, args: Exprs, ls: Locals, env: Env, st: State, direct: bool, fuel: nat)
    requires e.Call? && args == e.args && Holds(ls, env, st) && Fold(h.math, e, ls).Some?
    ensures Yields(st, EvalCall(h, e, env, st, direct, fuel), Fold(h.math, e, ls).value)
    ensures AllInScope(args, env) ==> EvalCall(h, e, env, st, direct, fuel).Done?
    decreases e, 0
  {
    ConstantList(h, args, ls, env, st, direct, fuel);
  }

  /** The constants as values. */
  ghost predicate AreConsts(vals: seq<Value>, cs: seq<L.Const>) {
    AllPrim(vals) && Consts(vals) == cs
  }

  lemma ConstsCons(v: Value, vals: seq<Value>, c: L.Const, cs: seq<L.Const>)
    requires v == Prim(c) && AreConsts(vals, cs)
    ensures AreConsts([v] + vals, [c] + cs)
  {
    assert ([v] + vals)[1..] == vals;
  }

  lemma {:induction false} ConstantList(h: Host, es: Exprs, ls: Locals, env: Env, st: State, direct: bool, fuel: nat)
    requires Holds(ls, env, st) && FoldAll(h.math, es, ls).Some?
    ensures
      var r := EvalList(h, es, env, st, direct, fuel);
      && OnlyLogged(st, r.st) && (r.Done? ==> AreConsts(r.vals, FoldAll(h.math, es, ls).value))
      && (AllInScope(es, env) ==> r.Done?)
    decreases es, 0
  {
    if es.MoreExprs? {
      var e, rest := es.head, es.tail;
      var c, cs := Fold(h.math, e, ls).value, FoldAll(h.math, rest, ls).value;
      if rest.NoExprs? && IsMulti(e) {
        ConstantRaw(h, e, ls, env, st, direct, fuel);
        ConstsCons(Prim(c), [], c, []);
      } else {
        ConstantEvaluates(h, e, ls, env, st, direct, fuel);
        var a := Eval(h, e, env, st, direct, fuel);
        ConstantList(h, rest, ls, env, a.st, direct, fuel);
        var b := EvalList(h, rest, env, a.st, direct, fuel);
        if a.Done? && b.Done? {
          ConstsCons(Prim(c), b.vals, c, cs);
        }
      }
    }
  }

  lemma {:induction false} ConstantBinary(h: Host, e: Expr, op: L.BinaryOp, l: Expr, r: Expr, ls: Locals, env: Env, st: State,
                                          direct: bool, fuel: nat)
    requires e == Binary(e.id, op, l, r) && Holds(ls, env, st) && Fold(h.math, e, ls).Some?
    ensures Yields(st, EvalRaw(h, e, env, st, direct, fuel), Fold(h.math, e, ls).value)
    ensures InScope(e, env) ==> EvalRaw(h, e, env, st, direct, fuel).Done?
    decreases e, 0
  {
    ConstantEvaluates(h, l, ls, env, st, direct, fuel);
    var la, ra := Fold(h.math, l, ls).value, Fold(h.math, r, ls);
    var a := Eval(h, l, env, st, direct, fuel);
    if a.Done? && ra.Some? {
      ConstantEvaluates(h, r, ls, env, a.st, direct, fuel);
      if !op.And? && !op.Or? {
        BinaryAgrees(h.math, op, la, ra.value);
      }
    }
  }

  // ----- whatever evaluates without the host is folded -----

  /** An operator folds exactly if its value is not left to the host, and then to that value. */
  lemma OperatorsFold(m: Math, u: L.UnaryOp, b: L.BinaryOp, c: L.Const, d: L.Const)
    ensures UnaryValue(m, u, Prim(c)) == if FoldUnary(m, u, c).Some? then Some(Prim(FoldUnary(m, u, c).value)) else None
    ensures !b.And? && !b.Or? ==>
              BinaryValue(m, b, Prim(c), Prim(d)) ==
              if FoldBinary(m, b, c, Some(d)).Some? then Some(Prim(FoldBinary(m, b, c, Some(d)).value)) else None
  {
  }

  /** The host that refuses everything: only what needs no host evaluates. */
  function Refusing(m: Math): Host {
    Host(m, (log: seq<Event>) => Raise)
  }

  lemma RefusingStops(m: Math)
    ensures forall operands: seq<Value>, st: State, fuel: nat :: HostCall(Refusing(m), operands, st, fuel).Stop?
  {
  }

  /** A global, or a field that is no constant of a library. */
  predicate LookedUp(m: Math, e: Expr) {
    e.Global? || (e.Index? && !(e.id in m.builtins && m.builtin(e.id, []).Some?))
  }

  predicate Asks(m: Math, e: Expr) {
    LookedUp(m, e) || e.Varargs? || e.Table? || e.InterpString?
  }

  lemma AskingStops(m: Math, e: Expr, env: Env, st: State, direct: bool, fuel: nat)
    requires Asks(m, e)
    ensures Eval(Refusing(m), e, env, st, direct, fuel).Stop?
  {
    var h := Refusing(m);
    RefusingStops(m);
    match e
    case Global(_, name) => assert HostCall(h, [Prim(L.CString(name))], st, fuel).Stop?;
    case Varargs(_) => assert HostCall(h, [], st, fuel).Stop?;
    case Index(_, t, k) =>
      var a := Eval(h, t, env, st, direct, fuel);
      if a.Done? {
        var b := Eval(h, k, env, a.st, direct, fuel);
        assert b.Done? ==> HostCall(h, a.vals + b.vals, b.st, fuel).Stop?;
      }
    case Table(_, items, keyed) =>
      var a := if OpenEnded(keyed) then EvalList(h, items, env, st, direct, fuel) else EvalEach(h, items, env, st, direct, fuel);
      assert a.Done? ==> HostCall(h, a.vals, a.st, fuel).Stop?;
    case InterpString(_, text, parts) =>
      var a := EvalEach(h, parts, env, st, direct, fuel);
      assert a.Done? ==> HostCall(h, [Prim(L.CString(text))] + a.vals, a.st, fuel).Stop?;
  }

  /**
   What is evaluated of an expression reads no local without a recorded constant, makes no closure, and calls none: what it
   calls is looked up by name, if it is not a built-in function that gives a constant.
   */
  ghost predicate Settled(h: Host, e: Expr, ls: Locals, env: Env, st: State, direct: bool, fuel: nat)
    decreases e
  {
    match e
    case Group(_, x) => Settled(h, x, ls, env, st, direct, fuel)
    case TypeAssertion(_, x) => Settled(h, x, ls, env, st, direct, fuel)
    case LocalRef(_, x) => Get(ls, x).Some?
    case Function(_, _, _) => false
    case Unary(_, _, x) => Settled(h, x, ls, env, st, direct, fuel)
    case Binary(_, op, l, r) =>
      var a := Eval(h, l, env, st, direct, fuel);
      && Settled(h, l, ls, env, st, direct, fuel)
      && (a.Done? && !(op.And? && !Truthy(a.vals[0])) && !(op.Or? && Truthy(a.vals[0])) ==>
            Settled(h, r, ls, env, a.st, direct, fuel))
    case IfElse(_, c, t, f) =>
      var a := Eval(h, c, env, st, direct, fuel);
      && Settled(h, c, ls, env, st, direct, fuel)
      && (a.Done? ==> Settled(h, if Truthy(a.vals[0]) then t else f, ls, env, a.st, direct, fuel))
    case Call(_, fn, args) => LookedUp(h.math, fn) && AllSettled(h, args, ls, env, st, direct, fuel)
    case _ => true
  }

  ghost predicate AllSettled(h: Host, es: Exprs, ls: Locals, env: Env, st: State, direct: bool, fuel: nat)
    decreases es
  {
    es.MoreExprs? ==>
      var a := Eval(h, es.head, env, st, direct, fuel);
      && Settled(h, es.head, ls, env, st, direct, fuel)
      && (a.Done? ==> AllSettled(h, es.tail, ls, env, a.st, direct, fuel))
  }

  /** An expression that evaluates without the host folds. */
  lemma {:induction false} EvaluatedFolds(m: Math, e: Expr, ls: Locals, env: Env, st: State, direct: bool, fuel: nat)
    requires Holds(ls, env, st) && Settled(Refusing(m), e, ls, env, st, direct, fuel)
    requires Eval(Refusing(m), e, env, st, direct, fuel).Done?
    ensures Fold(m, e, ls).Some?
    decreases e, 1
  {
    var h := Refusing(m);
    RefusingStops(m);
    assert EvalRaw(h, e, env, st, direct, fuel).Done?;
    match e
    case Group(_, x) => EvaluatedFolds(m, x, ls, env, st, direct, fuel);
    case TypeAssertion(_, x) => EvaluatedFolds(m, x, ls, env, st, direct, fuel);
    case Unary(_, op, x) =>
      EvaluatedFolds(m, x, ls, env, st, direct, fuel);
      ConstantEvaluates(h, x, ls, env, st, direct, fuel);
      var a := Eval(h, x, env, st, direct, fuel);
      assert HostCall(h, a.vals, a.st, fuel).Stop?;
      OperatorsFold(m, op, L.Concat, Fold(m, x, ls).value, L.CNil);
    case Binary(_, op, l, r) => EvaluatedBinary(m, e, op, l, r, ls, env, st, direct, fuel);
    case IfElse(_, c, t, f) =>
      EvaluatedFolds(m, c, ls, env, st, direct, fuel);
      ConstantEvaluates(h, c, ls, env, st, direct, fuel);
      var a := Eval(h, c, env, st, direct, fuel);
      EvaluatedFolds(m, if Truthy(a.vals[0]) then t else f, ls, env, a.st, direct, fuel);
    case Call(_, _, args) => EvaluatedCall(m, e, args, ls, env, st, direct, fuel);
    case _ =>
      if Asks(m, e) {
        AskingStops(m, e, env, st, direct, fuel);
      }
  }

  lemma {:induction false} EvaluatedBinary(m: Math, e: Expr, op: L.BinaryOp, l: Expr, r: Expr, ls: Locals, env: Env, st: State,
                                           direct: bool, fuel: nat)
    requires e == Binary(e.id, op, l, r) && Holds(ls, env, st) && Settled(Refusing(m), e, ls, env, st, direct, fuel)
    requires Eval(Refusing(m), e, env, st, direct, fuel).Done?
    ensures Fold(m, e, ls).Some?
    decreases e, 0
  {
    var h := Refusing(m);
    RefusingStops(m);
    assert EvalRaw(h, e, env, st, direct, fuel).Done?;
    EvaluatedFolds(m, l, ls, env, st, direct, fuel);
    ConstantEvaluates(h, l, ls, env, st, direct, fuel);
    var a := Eval(h, l, env, st, direct, fuel);
    if !(op.And? && !Truthy(a.vals[0])) && !(op.Or? && Truthy(a.vals[0])) {
      EvaluatedFolds(m, r, ls, env, a.st, direct, fuel);
      ConstantEvaluates(h, r, ls, env, a.st, direct, fuel);
      var b := Eval(h, r, env, a.st, direct, fuel);
      assert HostCall(h, a.vals + b.vals, b.st, fuel).Stop?;
      OperatorsFold(m, L.Not, op, Fold(m, l, ls).value, Fold(m, r, ls).value);
    }
  }

  /** A call to a built-in function. */
  lemma {:induction false} EvaluatedCall(m: Math, e: Expr, args: Exprs, ls: Locals, env: Env, st: State, direct: bool, fuel: nat)
    requires e.Call? && args == e.args && Holds(ls, env, st) && Settled(Refusing(m), e, ls, env, st, direct, fuel)
    requires Eval(Refusing(m), e, env, st, direct, fuel).Done?
    ensures Fold(m, e, ls).Some?
    decreases e, 0
  {
    var h := Refusing(m);
    RefusingStops(m);
    assert EvalRaw(h, e, env, st, direct, fuel).Done?;
    assert EvalCall(h, e, env, st, direct, fuel).Done?;
    AskingStops(m, e.fn, env, st, direct, fuel);
    var a := EvalList(h, args, env, st, direct, fuel);
    EvaluatedList(m, args, ls, env, st, direct, fuel);
    ConstantList(h, args, ls, env, st, direct, fuel);
    AskingStops(m, e.fn, env, a.st, direct, fuel);
    assert e.id in m.builtins && BuiltinValue(m, e.id, a.vals).Some?;
  }

  lemma {:induction false} EvaluatedList(m: Math, es: Exprs, ls: Locals, env: Env, st: State, direct: bool, fuel: nat)
    requires Holds(ls, env, st) && AllSettled(Refusing(m), es, ls, env, st, direct, fuel)
    requires EvalList(Refusing(m), es, env, st, direct, fuel).Done?
    ensures FoldAll(m, es, ls).Some?
    decreases es, 0
  {
    if es.MoreExprs? {
      var h := Refusing(m);
      EvaluatedFolds(m, es.head, ls, env, st, direct, fuel);
      ConstantEvaluates(h, es.head, ls, env, st, direct, fuel);
      var a := Eval(h, es.head, env, st, direct, fuel);
      if es.tail.MoreExprs? {
        EvaluatedList(m, es.tail, ls, env, a.st, direct, fuel);
      }
    }
  }

  /** Folding is exact: with its locals in scope, an expression folds if and only if it evaluates without the host. */
  lemma FoldsExactly(m: Math, e: Expr, ls: Locals, env: Env, st: State, direct: bool, fuel: nat)
    requires Holds(ls, env, st) && InScope(e, env) && Settled(Refusing(m), e, ls, env, st, direct, fuel)
    ensures Fold(m, e, ls).Some? <==> Eval(Refusing(m), e, env, st, direct, fuel).Done?
    ensures Fold(m, e, ls).Some? ==> Eval(Refusing(m), e, env, st, direct, fuel).vals == [Prim(Fold(m, e, ls).value)]
  {
    if Fold(m, e, ls).Some? {
      ConstantEvaluates(Refusing(m), e, ls, env, st, direct, fuel);
    } else if Eval(Refusing(m), e, env, st, direct, fuel).Done? {
      EvaluatedFolds(m, e, ls, env, st, direct, fuel);
    }
  }
}
