/**
 Surplus values of an assignment. The compiler emits nothing for a local, an upvalue or a global beyond the last target,
 although reading a global is an event. Without such a global the emitted code is simultaneous assignment; with one it is not.
 */
module AssignDropped {
  import opened Results
  import opened LuaSource
  import opened RegisterVm
  import opened EmitSpec
  import opened EmitProof
  import opened AssignSpec
  import opened AssignProof

  // ----- nothing dropped -----

  lemma {:induction false} SidesAreAll(c: Context, h: Host, env: Env, es: seq<Expr>, w: World)
    requires AllSound(c, h, env, es) && !AnyDropped(c, es)
    ensures EvalSides(c, h, env, es, w) == EvalList(h, env, es, w).0
    decreases |es|
  {
    if es != [] {
      assert Sound(c, h, env, es[0]);
      SidesAreAll(c, h, env, es[1..], Eval(h, env, es[0], w).0);
    }
  }

  lemma MeaningsAgree(c: Context, h: Host, env: Env, vars: seq<Expr>, values: seq<Expr>, w: World)
    requires (forall e <- vars :: IsTarget(e)) && AllSound(c, h, env, values) && NothingDropped(c, vars, values)
    ensures EmittedMeaning(c, h, env, vars, values, w) == AssignMeaning(h, env, vars, values, w)
  {
    var n := Smaller(|vars|, |values|);
    var w1 := EvalPlaces(h, env, vars, w).0;
    SidesAreAll(c, h, env, values[n..], EvalList(h, env, values[..n], w1).0);
  }

  /** The theorem about assignment: the emitted code is simultaneous assignment. */
  lemma AssignCorrect(c: Context, s: Builder, vars: seq<Expr>, values: seq<Expr>, t: Builder, vm: Vm, env: Env, cfg: Config)
    requires vars != [] && values != [] && (forall e <- vars :: IsTarget(e)) && AssignCode(c, s, vars, values) == Ok(t)
    requires AssignReady(c, vm, env, vars, values, s, cfg, t) && Fits(|vars|, |values|)
    requires NothingDropped(c, vars, values)
    ensures Assigned(c, vm, env, s, cfg, |t.insns|, AssignMeaning(vm.host, env, vars, values, cfg.world))
  {
    EmittedAssignCorrect(c, s, vars, values, t, vm, env, cfg);
    MeaningsAgree(c, vm.host, env, vars, values, cfg.world);
  }

  // ----- something dropped -----

  /** `a = x, G` does not read `G`. */
  lemma SurplusGlobalIsNotRead(c: Context, h: Host, env: Env, a: LocalId, x: LocalId, name: string, w: World)
    requires Global(name) !in c.known
    ensures
      var vars, values := [Local(a)], [Local(x), Global(name)];
      && EmittedMeaning(c, h, env, vars, values, w).0 == w
      && AssignMeaning(h, env, vars, values, w).0 == w + [EvGetGlobal(name)]
  {
    var vars, values := [Local(a)], [Local(x), Global(name)];
    assert values[..1] == [Local(x)] && values[1..] == [Global(name)];
    OneValue(h, env, Local(x), w);
    OneValue(h, env, Global(name), w);
    OnePlace(h, env, a, w);
    assert [Global(name)][1..] == [] && NoEffect(c, Global(name));
    assert EvalSides(c, h, env, [Global(name)], w) == EvalSides(c, h, env, [], w) == w;
    var vs := EvalList(h, env, [Local(x)], w).1;
    assert Padded(vs, 1) == vs;
    StoreOne(h, a, vs, w);
    StoreOne(h, a, vs, w + [EvGetGlobal(name)]);
  }

  lemma StoreOne(h: Host, a: LocalId, vs: seq<Value>, w: World)
    requires |vs| == 1
    ensures StorePlaces(h, [ToLocal(a)], vs, w) == w
  {
    assert [ToLocal(a)][1..] == [] && vs[1..] == [];
    assert StorePlaces(h, [], [], w) == w;
  }

  lemma OneValue(h: Host, env: Env, e: Expr, w: World)
    ensures EvalList(h, env, [e], w) == (Eval(h, env, e, w).0, [Eval(h, env, e, w).1])
  {
    var (w1, v) := Eval(h, env, e, w);
    assert [e][1..] == [] && [v] + [] == [v];
    assert EvalList(h, env, [], w1) == (w1, []);
  }

  lemma OnePlace(h: Host, env: Env, a: LocalId, w: World)
    ensures EvalPlaces(h, env, [Local(a)], w) == (w, [ToLocal(a)])
  {
    assert [Local(a)][1..] == [] && [ToLocal(a)] + [] == [ToLocal(a)];
    assert EvalPlaces(h, env, [], w) == (w, []);
  }

  // ----- a host that always answers the same -----

  ghost predicate Forgetful(h: Host) {
    (forall w, ev :: h.answer(w, ev) == NIL) && (forall w, u :: h.upvalue(w, u) == h.upvalue([], u))
  }

  function Forgetting(h: Host): Host {
    h.(answer := (_, _) => NIL, upvalue := (_: World, u: nat) => h.upvalue([], u))
  }

  /** Two evaluations with the same number of events and the same result. */
  ghost predicate Alike<V>(w: World, r: (World, V), w': World, r': (World, V)) {
    r.1 == r'.1 && |r.0| - |w| == |r'.0| - |w'| >= 0
  }

  lemma CompareAlike(h: Host, op: CompareOp, a: Value, b: Value, w: World, w': World)
    requires Forgetful(h)
    ensures Alike(w, CompareValue(h, w, op, a, b), w', CompareValue(h, w', op, a, b))
  {
  }

  lemma OperatorsAlike(h: Host, uop: UnaryOp, aop: ArithOp, a: Value, b: Value, w: World, w': World)
    requires Forgetful(h)
    ensures Alike(w, UnaryValue(h, w, uop, a), w', UnaryValue(h, w', uop, a))
    ensures Alike(w, ArithValue(h, w, aop, a, b), w', ArithValue(h, w', aop, a, b))
    ensures Alike(w, ConcatValue(h, w, a, b), w', ConcatValue(h, w', a, b))
  {
  }

  lemma {:induction false} EvalAlike(h: Host, env: Env, e: Expr, w: World, w': World)
    requires Forgetful(h)
    ensures Alike(w, Eval(h, env, e, w), w', Eval(h, env, e, w'))
    decreases e
  {
    match e
    case Literal(_) =>
    case Local(_) =>
    case Upvalue(_) =>
    case Global(_) =>
    case Group(x) => EvalAlike(h, env, x, w, w');
    case Unary(op, x) =>
      EvalAlike(h, env, x, w, w');
      var (w1, v) := Eval(h, env, x, w);
      OperatorsAlike(h, op, Add, v, v, w1, Eval(h, env, x, w').0);
    case Binary(op, x, y) => BinaryAlike(h, env, e, w, w');
    case IfElse(b, t, f) =>
      EvalAlike(h, env, b, w, w');
      var w1, w1' := Eval(h, env, b, w).0, Eval(h, env, b, w').0;
      EvalAlike(h, env, t, w1, w1');
      EvalAlike(h, env, f, w1, w1');
    case IndexName(x, _) => EvalAlike(h, env, x, w, w');
    case IndexExpr(x, i) =>
      EvalAlike(h, env, x, w, w');
      EvalAlike(h, env, i, Eval(h, env, x, w).0, Eval(h, env, x, w').0);
  }

  lemma {:induction false} BinaryAlike(h: Host, env: Env, e: Expr, w: World, w': World)
    requires Forgetful(h) && e.Binary?
    ensures Alike(w, Eval(h, env, e, w), w', Eval(h, env, e, w'))
    decreases e, 0
  {
    EvalAlike(h, env, e.left, w, w');
    var (w1, a) := Eval(h, env, e.left, w);
    var w1' := Eval(h, env, e.left, w').0;
    EvalAlike(h, env, e.right, w1, w1');
    var (w2, b) := Eval(h, env, e.right, w1);
    var w2' := Eval(h, env, e.right, w1').0;
    match e.bop
    case And =>
    case Or =>
    case Arith(op) => OperatorsAlike(h, Not, op, a, b, w2, w2');
    case Concat => OperatorsAlike(h, Not, Add, a, b, w2, w2');
    case Compare(op) => CompareAlike(h, op, a, b, w2, w2');
  }

  /** Leaving values out makes fewer events, and strictly fewer if one of them had any. */
  lemma {:induction false} SidesAreFewer(c: Context, h: Host, env: Env, es: seq<Expr>, w: World, w': World)
    requires Forgetful(h) && AllSound(c, h, env, es)
    ensures 0 <= |EvalSides(c, h, env, es, w)| - |w| <= |EvalList(h, env, es, w').0| - |w'|
    ensures AnyDropped(c, es) ==> |EvalSides(c, h, env, es, w)| - |w| < |EvalList(h, env, es, w').0| - |w'|
    decreases |es|
  {
    if es != [] {
      var e := es[0];
      assert Sound(c, h, env, e);
      EvalAlike(h, env, e, w, w');
      SidesAreFewer(c, h, env, es[1..], if NoEffect(c, e) then w else Eval(h, env, e, w).0, Eval(h, env, e, w').0);
    }
  }

  /** The number of events of the stores. */
  function Stores(ps: seq<Place>): nat {
    if ps == [] then 0 else (if ps[0].ToLocal? then 0 else 1) + Stores(ps[1..])
  }

  lemma {:induction false} StoreEvents(h: Host, ps: seq<Place>, vs: seq<Value>, w: World)
    requires |ps| == |vs|
    ensures |StorePlaces(h, ps, vs, w)| == |w| + Stores(ps)
    decreases |ps|
  {
    if ps != [] {
      var w1 := match ps[0]
        case ToLocal(_) => w
        case ToUpvalue(u) => Ask(h, w, EvSetUpvalue(u, vs[0])).0
        case ToGlobal(n) => Ask(h, w, EvSetGlobal(n, vs[0])).0
        case ToTable(t, k) => Ask(h, w, EvSetTable(t, k, vs[0])).0;
      StoreEvents(h, ps[1..], vs[1..], w1);
    }
  }

  lemma MeaningsDiffer(c: Context, h: Host, env: Env, vars: seq<Expr>, values: seq<Expr>, w: World)
    requires (forall e <- vars :: IsTarget(e)) && Forgetful(h) && AllSound(c, h, env, values) && !NothingDropped(c, vars, values)
    ensures |EmittedMeaning(c, h, env, vars, values, w).0| < |AssignMeaning(h, env, vars, values, w).0|
  {
    var n := Smaller(|vars|, |values|);
    var (w1, ps) := EvalPlaces(h, env, vars, w);
    var (w2, vs) := EvalList(h, env, values[..n], w1);
    var rest := values[n..];
    SidesAreFewer(c, h, env, rest, w2, w2);
    StoreEvents(h, ps, Padded(vs, |vars|), EvalSides(c, h, env, rest, w2));
    StoreEvents(h, ps, Padded(vs, |vars|), EvalList(h, env, rest, w2).0);
  }

  // ----- constants do not depend on the host's answers -----

  lemma {:induction false} EvalGrows(h: Host, env: Env, e: Expr, w: World)
    ensures w <= Eval(h, env, e, w).0
    decreases e
  {
    match e
    case Group(x) => EvalGrows(h, env, x, w);
    case Unary(_, x) => EvalGrows(h, env, x, w);
    case Binary(_, x, y) =>
      EvalGrows(h, env, x, w);
      EvalGrows(h, env, y, Eval(h, env, x, w).0);
    case IfElse(b, t, f) =>
      EvalGrows(h, env, b, w);
      var w1 := Eval(h, env, b, w).0;
      EvalGrows(h, env, t, w1);
      EvalGrows(h, env, f, w1);
    case IndexName(x, _) => EvalGrows(h, env, x, w);
    case IndexExpr(x, i) =>
      EvalGrows(h, env, x, w);
      EvalGrows(h, env, i, Eval(h, env, x, w).0);
    case Literal(_) =>
    case Local(_) =>
    case Upvalue(_) =>
    case Global(_) =>
  }

  /** An evaluation without events asks the host nothing. */
  lemma {:induction false} QuietAtStart(h: Host, env: Env, e: Expr)
    requires Eval(h, env, e, []).0 == []
    ensures Eval(Forgetting(h), env, e, []) == Eval(h, env, e, [])
    decreases e
  {
    match e
    case Group(x) => QuietAtStart(h, env, x);
    case Unary(_, x) =>
      EvalGrows(h, env, x, []);
      QuietAtStart(h, env, x);
    case Binary(_, x, y) => QuietBinary(h, env, e);
    case IfElse(b, t, f) =>
      var w1 := Eval(h, env, b, []).0;
      EvalGrows(h, env, b, []);
      EvalGrows(h, env, t, w1);
      EvalGrows(h, env, f, w1);
      QuietAtStart(h, env, b);
      QuietAtStart(h, env, if Truthy(Eval(h, env, b, []).1) then t else f);
    case IndexName(x, _) => EvalGrows(h, env, x, []);
    case IndexExpr(x, i) =>
      EvalGrows(h, env, x, []);
      EvalGrows(h, env, i, Eval(h, env, x, []).0);
    case Literal(_) =>
    case Local(_) =>
    case Upvalue(_) =>
    case Global(_) =>
  }

  lemma {:induction false} QuietBinary(h: Host, env: Env, e: Expr)
    requires e.Binary? && Eval(h, env, e, []).0 == []
    ensures Eval(Forgetting(h), env, e, []) == Eval(h, env, e, [])
    decreases e, 0
  {
    var (w1, a) := Eval(h, env, e.left, []);
    EvalGrows(h, env, e.left, []);
    EvalGrows(h, env, e.right, w1);
    assert w1 == [];
    QuietAtStart(h, env, e.left);
    var skipped := if e.bop.And? then !Truthy(a) else e.bop.Or? && Truthy(a);
    if !skipped {
      QuietAtStart(h, env, e.right);
    }
  }

  /** A constant that is right for one host is right for the host that has forgotten everything. */
  lemma ConstantAnywhere(h: Host, env: Env, e: Expr, k: Const, w: World)
    requires Eval(h, env, e, []) == ([], Prim(k))
    ensures Eval(Forgetting(h), env, e, w) == (w, Prim(k))
  {
    QuietAtStart(h, env, e);
    EvalAlike(Forgetting(h), env, e, [], w);
    EvalGrows(Forgetting(h), env, e, w);
    var w' := Eval(Forgetting(h), env, e, w).0;
    assert w' == w'[..|w|] == w;
  }

  lemma {:induction false} SoundAnywhere(c: Context, h: Host, env: Env, e: Expr)
    requires Sound(c, h, env, e)
    ensures Sound(c, Forgetting(h), env, e)
    decreases e
  {
    if e in c.known {
      forall w ensures Eval(Forgetting(h), env, e, w) == (w, Prim(c.known[e])) {
        ConstantAnywhere(h, env, e, c.known[e], w);
      }
    }
    match e
    case Group(x) => SoundAnywhere(c, h, env, x);
    case Unary(_, x) => SoundAnywhere(c, h, env, x);
    case Binary(_, x, y) =>
      SoundAnywhere(c, h, env, x);
      SoundAnywhere(c, h, env, y);
    case IfElse(x, y, z) =>
      SoundAnywhere(c, h, env, x);
      SoundAnywhere(c, h, env, y);
      SoundAnywhere(c, h, env, z);
    case IndexName(x, _) => SoundAnywhere(c, h, env, x);
    case IndexExpr(x, i) =>
      SoundAnywhere(c, h, env, x);
      SoundAnywhere(c, h, env, i);
    case Literal(_) =>
    case Local(_) =>
    case Upvalue(_) =>
    case Global(_) =>
  }

  // ----- exactly when -----

  ghost predicate SameMeaning(c: Context, h: Host, env: Env, vars: seq<Expr>, values: seq<Expr>, w: World)
    requires forall e <- vars :: IsTarget(e)
  {
    EmittedMeaning(c, h, env, vars, values, w) == AssignMeaning(h, env, vars, values, w)
  }

  /**
   Whatever the host and its history, the emitted code is simultaneous assignment if and only if no surplus value is a
   global. That there is a host for which the recorded constants are right is all that is asked.
   */
  lemma AllEvaluatedExactly(c: Context, env: Env, vars: seq<Expr>, values: seq<Expr>, some: Host)
    requires (forall e <- vars :: IsTarget(e)) && AllSound(c, some, env, values)
    ensures (forall h: Host, w: World | AllSound(c, h, env, values) :: SameMeaning(c, h, env, vars, values, w))
            <==> NothingDropped(c, vars, values)
  {
    if NothingDropped(c, vars, values) {
      forall h: Host, w: World | AllSound(c, h, env, values)
        ensures SameMeaning(c, h, env, vars, values, w)
      {
        MeaningsAgree(c, h, env, vars, values, w);
      }
    } else {
      var h := Forgetting(some);
      forall e <- values ensures Sound(c, h, env, e) {
        SoundAnywhere(c, some, env, e);
      }
      assert AllSound(c, h, env, values);
      MeaningsDiffer(c, h, env, vars, values, []);
      assert !SameMeaning(c, h, env, vars, values, []);
    }
  }
}
