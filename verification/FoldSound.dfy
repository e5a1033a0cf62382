/**
 Soundness over whole runs: whatever happens, every value an expression takes is the constant recorded for it.
 Code that runs directly is judged by one pair of maps, the bodies of closures by another; outside unrolled
 loops both pairs are the same.
 */
module FoldSound {
  import opened Results
  import L = LuaSource
  import opened FoldSource
  import opened FoldSpec
  import opened FoldProof

  datatype Ctx = Ctx(h: Host, w: set<LocalId>, k0: Constants, l0: Locals, k: Constants, l: Locals, start: nat)
  {
    function Ks(direct: bool): Constants { if direct then k else k0 }

    function Ls(direct: bool): Locals { if direct then l else l0 }

    /** Written locals are unknown. */
    ghost predicate Valid() {
      forall x <- w :: Get(l0, x) == None && Get(l, x) == None
    }
  }

  /** A local's cell is its own, and holds what is known of it. */
  ghost predicate EnvOk(ls: Locals, env: Env, st: State) {
    forall x <- env ::
      && env[x] < |st.cells|
      && st.cells[env[x]].owner == x
      && (Get(ls, x).Some? ==> st.cells[env[x]].value == Prim(Get(ls, x).value))
  }

  /** Cells and closures stay; only cells of written locals change. */
  ghost predicate Ext(w: set<LocalId>, st: State, st': State) {
    && |st.cells| <= |st'.cells|
    && |st.closures| <= |st'.closures|
    && (forall a :: 0 <= a < |st.cells| ==>
          && st'.cells[a].owner == st.cells[a].owner
          && (st.cells[a].owner !in w ==> st'.cells[a].value == st.cells[a].value))
    && (forall k :: 0 <= k < |st.closures| ==> st'.closures[k] == st.closures[k])
  }

  ghost predicate CodeOk(c: Ctx, code: Code, st: State) {
    && Fits(c.h.math, code.body, c.k0, c.l0, c.w, true)
    && Written(code.body) <= c.w
    && Unknown(code.params, c.l0)
    && EnvOk(c.l0, code.env, st)
  }

  ghost predicate GoodEvent(c: Ctx, ev: Event) {
    ev.Node? && Get(c.Ks(ev.direct), ev.id).Some? ==> ev.v == Prim(Get(c.Ks(ev.direct), ev.id).value)
  }

  /** Every value logged since `start` is the constant recorded for its node, if there is one. */
  ghost predicate Good(c: Ctx, log: seq<Event>) {
    forall i :: c.start <= i < |log| ==> GoodEvent(c, log[i])
  }

  ghost predicate Inv(c: Ctx, st: State) {
    && (forall code <- st.closures :: CodeOk(c, code, st))
    && Good(c, st.log)
  }

  ghost predicate Kept(c: Ctx, st: State, st': State) {
    Inv(c, st') && Ext(c.w, st, st')
  }

  ghost predicate Ready(c: Ctx, direct: bool, env: Env, st: State) {
    Inv(c, st) && EnvOk(c.l0, env, st) && EnvOk(c.Ls(direct), env, st)
  }

  // ----- what fits the maps -----

  ghost predicate FitE(c: Ctx, e: Expr, direct: bool) {
    && FitsE(c.h.math, e, c.k0, c.l0, c.w, true)
    && FitsE(c.h.math, e, c.Ks(direct), c.Ls(direct), c.w, false)
    && WrittenE(e) <= c.w
  }

  ghost predicate FitEs(c: Ctx, es: Exprs, direct: bool) {
    && FitsEs(c.h.math, es, c.k0, c.l0, c.w, true)
    && FitsEs(c.h.math, es, c.Ks(direct), c.Ls(direct), c.w, false)
    && WrittenEs(es) <= c.w
  }

  ghost predicate Fit(c: Ctx, s: Stat, direct: bool) {
    && Fits(c.h.math, s, c.k0, c.l0, c.w, true)
    && Fits(c.h.math, s, c.Ks(direct), c.Ls(direct), c.w, false)
    && Written(s) <= c.w
  }

  ghost predicate FitList(c: Ctx, ss: Stats, direct: bool) {
    && FitsList(c.h.math, ss, c.k0, c.l0, c.w, true)
    && FitsList(c.h.math, ss, c.Ks(direct), c.Ls(direct), c.w, false)
    && WrittenList(ss) <= c.w
  }

  lemma {:induction false} ShallowE(m: Math, e: Expr, ks: Constants, ls: Locals, w: set<LocalId>)
    requires FitsE(m, e, ks, ls, w, true)
    ensures FitsE(m, e, ks, ls, w, false)
    decreases e
  {
    match e
    case Group(_, x) => ShallowE(m, x, ks, ls, w);
    case Call(_, fn, args) => ShallowE(m, fn, ks, ls, w); ShallowEs(m, args, ks, ls, w);
    case Index(_, t, k) => ShallowE(m, t, ks, ls, w); ShallowE(m, k, ks, ls, w);
    case Unary(_, _, x) => ShallowE(m, x, ks, ls, w);
    case Binary(_, _, l, r) => ShallowE(m, l, ks, ls, w); ShallowE(m, r, ks, ls, w);
    case IfElse(_, b, t, f) => ShallowE(m, b, ks, ls, w); ShallowE(m, t, ks, ls, w); ShallowE(m, f, ks, ls, w);
    case TypeAssertion(_, x) => ShallowE(m, x, ks, ls, w);
    case Table(_, items, _) => ShallowEs(m, items, ks, ls, w);
    case InterpString(_, _, parts) => ShallowEs(m, parts, ks, ls, w);
    case _ =>
  }

  lemma {:induction false} ShallowEs(m: Math, es: Exprs, ks: Constants, ls: Locals, w: set<LocalId>)
    requires FitsEs(m, es, ks, ls, w, true)
    ensures FitsEs(m, es, ks, ls, w, false)
    decreases es
  {
    if es.MoreExprs? {
      ShallowE(m, es.head, ks, ls, w);
      ShallowEs(m, es.tail, ks, ls, w);
    }
  }

  lemma {:induction false} Shallow(m: Math, s: Stat, ks: Constants, ls: Locals, w: set<LocalId>)
    requires Fits(m, s, ks, ls, w, true)
    ensures Fits(m, s, ks, ls, w, false)
    decreases s
  {
    match s
    case LocalStat(_, values) => ShallowEs(m, values, ks, ls, w);
    case LocalFunction(_, fn) => ShallowE(m, fn, ks, ls, w);
    case Assign(targets, values) => ShallowEs(m, targets, ks, ls, w); ShallowEs(m, values, ks, ls, w);
    case Compound(_, target, value) => ShallowE(m, target, ks, ls, w); ShallowE(m, value, ks, ls, w);
    case FunctionStat(name, fn) => ShallowE(m, name, ks, ls, w); ShallowE(m, fn, ks, ls, w);
    case ExprStat(e) => ShallowE(m, e, ks, ls, w);
    case Block(stats) => ShallowList(m, stats, ks, ls, w);
    case If(b, yes, no) => ShallowE(m, b, ks, ls, w); Shallow(m, yes, ks, ls, w); Shallow(m, no, ks, ls, w);
    case While(b, body) => ShallowE(m, b, ks, ls, w); Shallow(m, body, ks, ls, w);
    case Repeat(body, b) => Shallow(m, body, ks, ls, w); ShallowE(m, b, ks, ls, w);
    case For(_, from, to, step, body) =>
      ShallowE(m, from, ks, ls, w);
      ShallowE(m, to, ks, ls, w);
      ShallowEs(m, step, ks, ls, w);
      Shallow(m, body, ks, ls, w);
    case ForIn(_, values, body) => ShallowEs(m, values, ks, ls, w); Shallow(m, body, ks, ls, w);
    case Return(values) => ShallowEs(m, values, ks, ls, w);
    case _ =>
  }

  lemma {:induction false} ShallowList(m: Math, ss: Stats, ks: Constants, ls: Locals, w: set<LocalId>)
    requires FitsList(m, ss, ks, ls, w, true)
    ensures FitsList(m, ss, ks, ls, w, false)
    decreases ss
  {
    if ss.MoreStats? {
      Shallow(m, ss.head, ks, ls, w);
      ShallowList(m, ss.tail, ks, ls, w);
    }
  }

  // ----- keeping the invariant -----

  lemma EnvOkLater(c: Ctx, direct: bool, env: Env, st: State, st': State)
    requires c.Valid() && EnvOk(c.Ls(direct), env, st) && Ext(c.w, st, st')
    ensures EnvOk(c.Ls(direct), env, st')
  {
  }

  lemma ReadyLater(c: Ctx, direct: bool, env: Env, st: State, st': State)
    requires c.Valid() && Ready(c, direct, env, st) && Kept(c, st, st')
    ensures Ready(c, direct, env, st')
  {
    EnvOkLater(c, direct, env, st, st');
    EnvOkLater(c, false, env, st, st');
  }

  lemma CodesLater(c: Ctx, codes: seq<Code>, st: State, st': State)
    requires c.Valid() && Ext(c.w, st, st')
    requires forall code <- codes :: CodeOk(c, code, st)
    ensures forall code <- codes :: CodeOk(c, code, st')
  {
    forall code <- codes
      ensures CodeOk(c, code, st')
    {
      EnvOkLater(c, false, code.env, st, st');
    }
  }

  /** More cells, other values in written ones, more good events: the invariant stays. */
  lemma InvLater(c: Ctx, st: State, st': State)
    requires c.Valid() && Inv(c, st) && Ext(c.w, st, st') && st'.closures == st.closures && Good(c, st'.log)
    ensures Kept(c, st, st')
  {
    CodesLater(c, st.closures, st, st');
  }

  lemma ClosureAdded(c: Ctx, st: State, code: Code)
    requires c.Valid() && Inv(c, st) && CodeOk(c, code, st)
    ensures Kept(c, st, st.(closures := st.closures + [code]))
  {
    var st' := st.(closures := st.closures + [code]);
    CodesLater(c, st.closures, st, st');
    CodesLater(c, [code], st, st');
    forall x <- st'.closures
      ensures CodeOk(c, x, st')
    {
      assert x in st.closures || x in [code];
    }
  }

  lemma LogAdded(c: Ctx, st: State, ev: Event)
    requires c.Valid() && Inv(c, st) && GoodEvent(c, ev)
    ensures Kept(c, st, st.(log := st.log + [ev]))
  {
    InvLater(c, st, st.(log := st.log + [ev]));
  }

  lemma CellWritten(c: Ctx, st: State, a: nat, v: Value)
    requires c.Valid() && Inv(c, st) && a < |st.cells| && st.cells[a].owner in c.w
    ensures Kept(c, st, st.(cells := st.cells[a := st.cells[a].(value := v)]))
  {
    InvLater(c, st, st.(cells := st.cells[a := st.cells[a].(value := v)]));
  }

  // ----- binding -----

  /** The locals get the values that are known of them. */
  ghost predicate Matches(vars: seq<LocalId>, vals: seq<Value>, ls: Locals) {
    vars == [] ||
    (&& (Get(ls, vars[0]).Some? ==> First(vals) == Prim(Get(ls, vars[0]).value))
     && Matches(vars[1..], if vals == [] then [] else vals[1..], ls))
  }

  lemma {:induction false} UnknownMatches(vars: seq<LocalId>, vals: seq<Value>, ls: Locals)
    requires Unknown(vars, ls)
    ensures Matches(vars, vals, ls)
    decreases |vars|
  {
    if vars != [] {
      assert vars[0] in vars;
      UnknownMatches(vars[1..], if vals == [] then [] else vals[1..], ls);
    }
  }

  lemma {:induction false} BindReady(c: Ctx, direct: bool, vars: seq<LocalId>, vals: seq<Value>, env: Env, st: State)
    requires c.Valid() && Ready(c, direct, env, st)
    requires Matches(vars, vals, c.l0) && Matches(vars, vals, c.Ls(direct))
    ensures var (env', st') := Bind(vars, vals, env, st);
      Ready(c, direct, env', st') && Kept(c, st, st')
    decreases |vars|
  {
    InvLater(c, st, st);
    if vars != [] {
      var st1 := st.(cells := st.cells + [Cell(vars[0], First(vals))]);
      var env1 := env[vars[0] := |st.cells|];
      InvLater(c, st, st1);
      ReadyLater(c, direct, env, st, st1);
      BindReady(c, direct, vars[1..], if vals == [] then [] else vals[1..], env1, st1);
    }
  }

  /** What a list of expressions gives: the constants, and as many values as expressions unless the last may be several. */
  ghost predicate Gives(m: Math, es: Exprs, vals: seq<Value>, ls: Locals) {
    match es
    case NoExprs => vals == []
    case MoreExprs(e, rest) =>
      && (Fold(m, e, ls).Some? ==> First(vals) == Prim(Fold(m, e, ls).value))
      && ((rest.NoExprs? && IsMulti(e)) || (|vals| > 0 && Gives(m, rest, vals[1..], ls)))
  }

  lemma {:induction false} DeclarationMatches(m: Math, vars: seq<LocalId>, values: Exprs, rest: Constant, vals: seq<Value>, ls: Locals, w: set<LocalId>)
    requires DeclarationFits(m, vars, values, rest, ls, w)
    requires values.MoreExprs? ==> rest == Rest(values) && Gives(m, values, vals, ls)
    requires values.NoExprs? ==> rest.None? || (rest == Some(L.CNil) && vals == [])
    ensures Matches(vars, vals, ls)
    decreases |vars|
  {
    if vars != [] {
      var tail := if vals == [] then [] else vals[1..];
      DeclarationMatches(m, vars[1..], if values.MoreExprs? then values.tail else values, rest, tail, ls, w);
    }
  }

  // ----- running -----

  lemma KeptTrans(c: Ctx, a: State, b: State, d: State)
    requires Kept(c, a, b) && Kept(c, b, d)
    ensures Kept(c, a, d)
  {
  }

  lemma {:induction false} SoundHostCall(c: Ctx, operands: seq<Value>, st: State, fuel: nat)
    requires c.Valid() && Inv(c, st)
    ensures Kept(c, st, HostCall(c.h, operands, st, fuel).st)
    decreases fuel, 0, 0
  {
    var asked := st.(log := st.log + [Asked(operands)]);
    LogAdded(c, st, Asked(operands));
    var act := c.h.answer(asked.log);
    if act.Invoke? && fuel > 0 {
      SoundCallClosure(c, act.k, act.args, asked, fuel - 1);
      var r := CallClosure(c.h, act.k, act.args, asked, fuel - 1);
      KeptTrans(c, st, asked, r.st);
      if r.Done? {
        SoundHostCall(c, operands + r.vals, r.st, fuel - 1);
        KeptTrans(c, st, r.st, HostCall(c.h, operands, st, fuel).st);
      }
    }
  }

  lemma {:induction false} SoundCallClosure(c: Ctx, k: nat, args: seq<Value>, st: State, fuel: nat)
    requires c.Valid() && Inv(c, st)
    ensures Kept(c, st, CallClosure(c.h, k, args, st, fuel).st)
    decreases fuel, 2
  {
    if k < |st.closures| {
      var code := st.closures[k];
      assert CodeOk(c, code, st);
      UnknownMatches(code.params, args, c.l0);
      BindReady(c, false, code.params, args, code.env, st);
      var (env, bound) := Bind(code.params, args, code.env, st);
      Shallow(c.h.math, code.body, c.k0, c.l0, c.w);
      SoundExec(c, code.body, env, bound, false, fuel);
      KeptTrans(c, st, bound, Exec(c.h, code.body, env, bound, false, fuel).st);
    } else {
      InvLater(c, st, st);
    }
  }

  lemma {:induction false} SoundApply(c: Ctx, f: Value, args: seq<Value>, st: State, fuel: nat)
    requires c.Valid() && Inv(c, st)
    ensures Kept(c, st, Apply(c.h, f, args, st, fuel).st)
    decreases fuel, 0, 1
  {
    if !f.Closure? {
      SoundHostCall(c, [f] + args, st, fuel);
    } else if fuel == 0 {
      InvLater(c, st, st);
    } else {
      SoundCallClosure(c, f.k, args, st, fuel - 1);
    }
  }

  lemma {:induction false} SoundEval(c: Ctx, e: Expr, env: Env, st: State, direct: bool, fuel: nat)
    requires c.Valid() && Ready(c, direct, env, st) && FitE(c, e, direct)
    ensures
      var r := Eval(c.h, e, env, st, direct, fuel);
      Kept(c, st, r.st) && Ready(c, direct, env, r.st)
    decreases fuel, 1, e, 2
  {
    var raw := EvalRaw(c.h, e, env, st, direct, fuel);
    SoundRaw(c, e, env, st, direct, fuel);
    LogsConstant(c, e, env, st, direct, fuel, raw);
    KeptTrans(c, st, raw.st, Eval(c.h, e, env, st, direct, fuel).st);
    ReadyLater(c, direct, env, st, Eval(c.h, e, env, st, direct, fuel).st);
  }

  lemma LogsConstant(c: Ctx, e: Expr, env: Env, st: State, direct: bool, fuel: nat, raw: Res)
    requires c.Valid() && Ready(c, direct, env, st) && FitE(c, e, direct)
    requires raw == EvalRaw(c.h, e, env, st, direct, fuel) && Kept(c, st, raw.st)
    ensures Kept(c, raw.st, Logged(One(raw), direct, e.id).st)
  {
    if raw.Done? {
      if Fold(c.h.math, e, c.Ls(direct)).Some? {
        ConstantRaw(c.h, e, c.Ls(direct), env, st, direct, fuel);
      }
      LogAdded(c, raw.st, Node(direct, e.id, First(raw.vals)));
    } else {
      InvLater(c, raw.st, raw.st);
    }
  }

  lemma {:induction false} SoundRaw(c: Ctx, e: Expr, env: Env, st: State, direct: bool, fuel: nat)
    requires c.Valid() && Ready(c, direct, env, st) && FitE(c, e, direct)
    ensures Kept(c, st, EvalRaw(c.h, e, env, st, direct, fuel).st)
    decreases fuel, 1, e, 1
  {
    match e
    case Group(_, x) => SoundEval(c, x, env, st, direct, fuel);
    case Literal(_, _) => InvLater(c, st, st);
    case LocalRef(_, _) => InvLater(c, st, st);
    case Global(_, name) => SoundHostCall(c, [Prim(L.CString(name))], st, fuel);
    case Call(_, _, _) => SoundCall(c, e, env, st, direct, fuel);
    case Index(_, _, _) => SoundIndex(c, e, env, st, direct, fuel);
    case Function(_, _, _) => SoundFunction(c, e, env, st, direct);
    case Unary(_, op, x) => SoundUnary(c, e, x, env, st, direct, fuel);
    case Binary(_, _, _, _) => SoundBinary(c, e, env, st, direct, fuel);
    case IfElse(_, b, t, f) => SoundIfElse(c, e, env, st, direct, fuel);
    case TypeAssertion(_, x) => SoundEval(c, x, env, st, direct, fuel);
    case Varargs(_) => SoundHostCall(c, [], st, fuel);
    case Table(_, items, keyed) => SoundTable(c, e, env, st, direct, fuel);
    case InterpString(_, _, _) => SoundInterpString(c, e, env, st, direct, fuel);
  }

  lemma {:induction false} SoundInterpString(c: Ctx, e: Expr, env: Env, st: State, direct: bool, fuel: nat)
    requires c.Valid() && Ready(c, direct, env, st) && FitE(c, e, direct) && e.InterpString?
    ensures Kept(c, st, EvalRaw(c.h, e, env, st, direct, fuel).st)
    decreases fuel, 1, e, 0
  {
    SoundEach(c, e.parts, env, st, direct, fuel);
    SoundHostAfter(c, st, EvalEach(c.h, e.parts, env, st, direct, fuel), [Prim(L.CString(e.text))], fuel);
  }

  /** Values, and then an operation of the host's on them. */
  lemma SoundHostAfter(c: Ctx, st: State, a: Res, first: seq<Value>, fuel: nat)
    requires c.Valid() && Kept(c, st, a.st)
    ensures a.Done? ==> Kept(c, st, HostCall(c.h, first + a.vals, a.st, fuel).st)
    decreases fuel, 0, 1
  {
    if a.Done? {
      SoundHostCall(c, first + a.vals, a.st, fuel);
      KeptTrans(c, st, a.st, HostCall(c.h, first + a.vals, a.st, fuel).st);
    }
  }

  lemma {:induction false} SoundTable(c: Ctx, e: Expr, env: Env, st: State, direct: bool, fuel: nat)
    requires c.Valid() && Ready(c, direct, env, st) && FitE(c, e, direct) && e.Table?
    ensures Kept(c, st, EvalRaw(c.h, e, env, st, direct, fuel).st)
    decreases fuel, 1, e, 0
  {
    if OpenEnded(e.keyed) {
      SoundList(c, e.items, env, st, direct, fuel);
    } else {
      SoundEach(c, e.items, env, st, direct, fuel);
    }
    var a := if OpenEnded(e.keyed) then EvalList(c.h, e.items, env, st, direct, fuel)
             else EvalEach(c.h, e.items, env, st, direct, fuel);
    SoundHostAfter(c, st, a, [], fuel);
    assert a.Done? ==> [] + a.vals == a.vals;
  }

  lemma SoundFunction(c: Ctx, e: Expr, env: Env, st: State, direct: bool)
    requires c.Valid() && Ready(c, direct, env, st) && FitE(c, e, direct) && e.Function?
    ensures Kept(c, st, st.(closures := st.closures + [Code(e.params, e.body, env)]))
  {
    ClosureAdded(c, st, Code(e.params, e.body, env));
  }

  lemma {:induction false} SoundIfElse(c: Ctx, e: Expr, env: Env, st: State, direct: bool, fuel: nat)
    requires c.Valid() && Ready(c, direct, env, st) && FitE(c, e, direct) && e.IfElse?
    ensures Kept(c, st, EvalRaw(c.h, e, env, st, direct, fuel).st)
    decreases fuel, 1, e, 0
  {
    SoundEval(c, e.cond, env, st, direct, fuel);
    var a := Eval(c.h, e.cond, env, st, direct, fuel);
    if a.Done? {
      var taken := if Truthy(a.vals[0]) then e.yes else e.no;
      SoundEval(c, taken, env, a.st, direct, fuel);
      KeptTrans(c, st, a.st, Eval(c.h, taken, env, a.st, direct, fuel).st);
    }
  }

  /** One operand, and then perhaps an operation of the host's. */
  lemma {:induction false} SoundUnary(c: Ctx, e: Expr, x: Expr, env: Env, st: State, direct: bool, fuel: nat)
    requires e.Unary? && x == e.operand && c.Valid() && Ready(c, direct, env, st) && FitE(c, e, direct)
    ensures
      var a := Eval(c.h, x, env, st, direct, fuel);
      Kept(c, st, a.st) && (a.Done? ==> Kept(c, st, HostCall(c.h, a.vals, a.st, fuel).st))
    decreases fuel, 1, e, 0
  {
    SoundEval(c, x, env, st, direct, fuel);
    var a := Eval(c.h, x, env, st, direct, fuel);
    if a.Done? {
      SoundHostCall(c, a.vals, a.st, fuel);
      KeptTrans(c, st, a.st, HostCall(c.h, a.vals, a.st, fuel).st);
    }
  }

  lemma {:induction false} SoundIndex(c: Ctx, e: Expr, env: Env, st: State, direct: bool, fuel: nat)
    requires c.Valid() && Ready(c, direct, env, st) && FitE(c, e, direct) && e.Index?
    ensures Kept(c, st, EvalRaw(c.h, e, env, st, direct, fuel).st)
    decreases fuel, 1, e, 0, 1
  {
    InvLater(c, st, st);
    SoundPair(c, e, e.table, e.key, env, st, direct, fuel);
  }

  lemma {:induction false} SoundBinary(c: Ctx, e: Expr, env: Env, st: State, direct: bool, fuel: nat)
    requires c.Valid() && Ready(c, direct, env, st) && FitE(c, e, direct) && e.Binary?
    ensures Kept(c, st, EvalRaw(c.h, e, env, st, direct, fuel).st)
    decreases fuel, 1, e, 0, 1
  {
    SoundPair(c, e, e.left, e.right, env, st, direct, fuel);
  }

  /** Two operands, and then perhaps an operation of the host's. */
  lemma {:induction false} SoundPair(c: Ctx, e: Expr, x: Expr, y: Expr, env: Env, st: State, direct: bool, fuel: nat)
    requires (e.Index? && x == e.table && y == e.key) || (e.Binary? && x == e.left && y == e.right)
    requires c.Valid() && Ready(c, direct, env, st) && FitE(c, e, direct)
    ensures
      var a := Eval(c.h, x, env, st, direct, fuel);
      && Kept(c, st, a.st)
      && (a.Done? ==>
            var b := Eval(c.h, y, env, a.st, direct, fuel);
            Kept(c, st, b.st) && (b.Done? ==> Kept(c, st, HostCall(c.h, a.vals + b.vals, b.st, fuel).st)))
    decreases fuel, 1, e, 0, 0
  {
    SoundEval(c, x, env, st, direct, fuel);
    var a := Eval(c.h, x, env, st, direct, fuel);
    if a.Done? {
      SoundEval(c, y, env, a.st, direct, fuel);
      var b := Eval(c.h, y, env, a.st, direct, fuel);
      KeptTrans(c, st, a.st, b.st);
      if b.Done? {
        SoundHostCall(c, a.vals + b.vals, b.st, fuel);
        KeptTrans(c, st, b.st, HostCall(c.h, a.vals + b.vals, b.st, fuel).st);
      }
    }
  }

  lemma {:induction false} SoundCall(c: Ctx, call: Expr, env: Env, st: State, direct: bool, fuel: nat)
    requires c.Valid() && Ready(c, direct, env, st) && call.Call? && FitE(c, call, direct)
    ensures Kept(c, st, EvalCall(c.h, call, env, st, direct, fuel).st)
    decreases fuel, 1, call, 0
  {
    var fn, args := call.fn, call.args;
    if call.id in c.h.math.builtins {
      SoundList(c, args, env, st, direct, fuel);
      var a := EvalList(c.h, args, env, st, direct, fuel);
      if a.Done? && BuiltinValue(c.h.math, call.id, a.vals).None? {
        SoundEval(c, fn, env, a.st, direct, fuel);
        SoundCallee(c, st, a.st, Eval(c.h, fn, env, a.st, direct, fuel), a.vals, fuel);
      }
    } else {
      SoundEval(c, fn, env, st, direct, fuel);
      var f := Eval(c.h, fn, env, st, direct, fuel);
      if f.Done? {
        SoundList(c, args, env, f.st, direct, fuel);
        var a := EvalList(c.h, args, env, f.st, direct, fuel);
        SoundArguments(c, st, f.st, a, f.vals[0], fuel);
      }
    }
  }

  lemma SoundCallee(c: Ctx, st: State, mid: State, f: Res, args: seq<Value>, fuel: nat)
    requires c.Valid() && Kept(c, st, mid) && Kept(c, mid, f.st) && (f.Done? ==> |f.vals| == 1)
    ensures Kept(c, st, f.st) && (f.Done? ==> Kept(c, st, Apply(c.h, f.vals[0], args, f.st, fuel).st))
    decreases fuel, 0, 2
  {
    KeptTrans(c, st, mid, f.st);
    if f.Done? {
      SoundApply(c, f.vals[0], args, f.st, fuel);
      KeptTrans(c, st, f.st, Apply(c.h, f.vals[0], args, f.st, fuel).st);
    }
  }

  lemma SoundArguments(c: Ctx, st: State, mid: State, a: Res, f: Value, fuel: nat)
    requires c.Valid() && Kept(c, st, mid) && Kept(c, mid, a.st)
    ensures Kept(c, st, a.st) && (a.Done? ==> Kept(c, st, Apply(c.h, f, a.vals, a.st, fuel).st))
    decreases fuel, 0, 2
  {
    KeptTrans(c, st, mid, a.st);
    if a.Done? {
      SoundApply(c, f, a.vals, a.st, fuel);
      KeptTrans(c, st, a.st, Apply(c.h, f, a.vals, a.st, fuel).st);
    }
  }

  lemma {:induction false} SoundList(c: Ctx, es: Exprs, env: Env, st: State, direct: bool, fuel: nat)
    requires c.Valid() && Ready(c, direct, env, st) && FitEs(c, es, direct)
    ensures
      var r := EvalList(c.h, es, env, st, direct, fuel);
      && Kept(c, st, r.st) && Ready(c, direct, env, r.st)
      && (r.Done? ==> Gives(c.h.math, es, r.vals, c.l0) && Gives(c.h.math, es, r.vals, c.Ls(direct)))
    decreases fuel, 1, es, 0
  {
    match es {
      case NoExprs => InvLater(c, st, st);
      case MoreExprs(e, rest) =>
        if rest.NoExprs? && IsMulti(e) {
          SoundLastMulti(c, e, env, st, direct, fuel);
        } else {
          SoundEval(c, e, env, st, direct, fuel);
          GivesHead(c, e, env, st, direct, fuel);
          var a := Eval(c.h, e, env, st, direct, fuel);
          if a.Done? {
            SoundList(c, rest, env, a.st, direct, fuel);
            var b := EvalList(c.h, rest, env, a.st, direct, fuel);
            KeptTrans(c, st, a.st, b.st);
            if b.Done? {
              GivesCons(c.h.math, e, rest, a.vals, b.vals, c.l0);
              GivesCons(c.h.math, e, rest, a.vals, b.vals, c.Ls(direct));
            }
          }
        }
    }
  }

  lemma GivesCons(m: Math, e: Expr, rest: Exprs, a: seq<Value>, b: seq<Value>, ls: Locals)
    requires |a| == 1 && (Fold(m, e, ls).Some? ==> a[0] == Prim(Fold(m, e, ls).value)) && Gives(m, rest, b, ls)
    ensures Gives(m, MoreExprs(e, rest), a + b, ls)
  {
    assert (a + b)[1..] == b;
  }

  lemma {:induction false} SoundEach(c: Ctx, es: Exprs, env: Env, st: State, direct: bool, fuel: nat)
    requires c.Valid() && Ready(c, direct, env, st) && FitEs(c, es, direct)
    ensures
      var r := EvalEach(c.h, es, env, st, direct, fuel);
      Kept(c, st, r.st) && Ready(c, direct, env, r.st)
    decreases fuel, 1, es, 0
  {
    match es {
      case NoExprs => InvLater(c, st, st);
      case MoreExprs(e, rest) =>
        SoundEval(c, e, env, st, direct, fuel);
        var a := Eval(c.h, e, env, st, direct, fuel);
        if a.Done? {
          SoundEach(c, rest, env, a.st, direct, fuel);
          KeptTrans(c, st, a.st, EvalEach(c.h, rest, env, a.st, direct, fuel).st);
        }
    }
  }

  lemma GivesHead(c: Ctx, e: Expr, env: Env, st: State, direct: bool, fuel: nat)
    requires Ready(c, direct, env, st)
    ensures
      var a := Eval(c.h, e, env, st, direct, fuel);
      a.Done? ==>
        && (Fold(c.h.math, e, c.l0).Some? ==> a.vals[0] == Prim(Fold(c.h.math, e, c.l0).value))
        && (Fold(c.h.math, e, c.Ls(direct)).Some? ==> a.vals[0] == Prim(Fold(c.h.math, e, c.Ls(direct)).value))
  {
    if Fold(c.h.math, e, c.l0).Some? {
      ConstantEvaluates(c.h, e, c.l0, env, st, direct, fuel);
    }
    if Fold(c.h.math, e, c.Ls(direct)).Some? {
      ConstantEvaluates(c.h, e, c.Ls(direct), env, st, direct, fuel);
    }
  }

  lemma {:induction false} SoundLastMulti(c: Ctx, e: Expr, env: Env, st: State, direct: bool, fuel: nat)
    requires c.Valid() && Ready(c, direct, env, st) && FitE(c, e, direct)
    ensures
      var r := Logged(EvalRaw(c.h, e, env, st, direct, fuel), direct, e.id);
      && Kept(c, st, r.st) && Ready(c, direct, env, r.st)
      && (r.Done? ==>
            && (Fold(c.h.math, e, c.l0).Some? ==> First(r.vals) == Prim(Fold(c.h.math, e, c.l0).value))
            && (Fold(c.h.math, e, c.Ls(direct)).Some? ==> First(r.vals) == Prim(Fold(c.h.math, e, c.Ls(direct)).value)))
    decreases fuel, 1, e, 2
  {
    var raw := EvalRaw(c.h, e, env, st, direct, fuel);
    SoundRaw(c, e, env, st, direct, fuel);
    LogsConstant(c, e, env, st, direct, fuel, raw);
    assert Logged(One(raw), direct, e.id).st == Logged(raw, direct, e.id).st;
    KeptTrans(c, st, raw.st, Logged(raw, direct, e.id).st);
    ReadyLater(c, direct, env, st, Logged(raw, direct, e.id).st);
    GivesHead(c, e, env, st, direct, fuel);
  }

  lemma {:induction false} SoundPlace(c: Ctx, e: Expr, env: Env, st: State, direct: bool, fuel: nat)
    requires c.Valid() && Ready(c, direct, env, st) && WrittenTarget(e) <= c.w
    requires FitsE(c.h.math, e, c.k0, c.l0, c.w, true) && FitsE(c.h.math, e, c.Ks(direct), c.Ls(direct), c.w, false)
    ensures
      var r := EvalPlace(c.h, e, env, st, direct, fuel);
      Kept(c, st, r.st) && Ready(c, direct, env, r.st)
    decreases fuel, 1, e, 3
  {
    if e.Index? {
      assert WrittenTarget(e) == WrittenE(e);
      SoundPair(c, e, e.table, e.key, env, st, direct, fuel);
    } else {
      InvLater(c, st, st);
    }
    ReadyLater(c, direct, env, st, EvalPlace(c.h, e, env, st, direct, fuel).st);
  }

  lemma {:induction false} SoundTargets(c: Ctx, es: Exprs, env: Env, st: State, direct: bool, fuel: nat)
    requires c.Valid() && Ready(c, direct, env, st)
    requires FitsEs(c.h.math, es, c.k0, c.l0, c.w, true) && FitsEs(c.h.math, es, c.Ks(direct), c.Ls(direct), c.w, false)
    requires WrittenTargets(es) <= c.w
    ensures
      var r := EvalTargets(c.h, es, env, st, direct, fuel);
      Kept(c, st, r.st) && Ready(c, direct, env, r.st)
    decreases fuel, 1, es, 0
  {
    match es {
      case NoExprs => InvLater(c, st, st);
      case MoreExprs(e, rest) =>
        SoundPlace(c, e, env, st, direct, fuel);
        var a := EvalPlace(c.h, e, env, st, direct, fuel);
        if a.Done? {
          SoundTargets(c, rest, env, a.st, direct, fuel);
          KeptTrans(c, st, a.st, EvalTargets(c.h, rest, env, a.st, direct, fuel).st);
        }
    }
  }

  lemma SoundStoreOne(c: Ctx, e: Expr, operands: seq<Value>, v: Value, env: Env, st: State, direct: bool, fuel: nat)
    requires c.Valid() && Ready(c, direct, env, st) && WrittenTarget(e) <= c.w
    ensures
      var r := StoreOne(c.h, e, operands, v, env, st, fuel);
      Kept(c, st, r.st) && Ready(c, direct, env, r.st)
    decreases fuel, 0, 2
  {
    if !e.LocalRef? {
      SoundHostCall(c, operands + [v], st, fuel);
    } else if e.x in env && env[e.x] < |st.cells| {
      CellWritten(c, st, env[e.x], v);
    } else {
      InvLater(c, st, st);
    }
    ReadyLater(c, direct, env, st, StoreOne(c.h, e, operands, v, env, st, fuel).st);
  }

  lemma {:induction false} SoundStore(c: Ctx, es: Exprs, operands: seq<Value>, vals: seq<Value>, env: Env, st: State, direct: bool, fuel: nat)
    requires c.Valid() && Ready(c, direct, env, st) && WrittenTargets(es) <= c.w
    ensures
      var r := Store(c.h, es, operands, vals, env, st, fuel);
      Kept(c, st, r.st) && Ready(c, direct, env, r.st)
    decreases fuel, 1, es, 0
  {
    if es.MoreExprs? {
      var e, rest := es.head, es.tail;
      var n := if e.Index? && |operands| >= 2 then 2 else 0;
      var more := if vals == [] then [] else vals[1..];
      SoundStoreOne(c, e, operands[..n], First(vals), env, st, direct, fuel);
      var r := StoreOne(c.h, e, operands[..n], First(vals), env, st, fuel);
      if r.Done? {
        SoundStore(c, rest, operands[n..], more, env, r.st, direct, fuel);
        KeptTrans(c, st, r.st, Store(c.h, rest, operands[n..], more, env, r.st, fuel).st);
      }
    } else {
      InvLater(c, st, st);
    }
  }

  lemma {:induction false} SoundReadTarget(c: Ctx, e: Expr, env: Env, st: State, direct: bool, fuel: nat)
    requires c.Valid() && Ready(c, direct, env, st) && FitE(c, e, direct) && WrittenTarget(e) <= c.w
    ensures
      var r := ReadTarget(c.h, e, env, st, direct, fuel);
      Kept(c, st, r.st) && Ready(c, direct, env, r.st)
    decreases fuel, 1, e, 4
  {
    if e.Index? {
      SoundPlace(c, e, env, st, direct, fuel);
      var a := EvalPlace(c.h, e, env, st, direct, fuel);
      if a.Done? {
        SoundHostCall(c, a.vals, a.st, fuel);
        KeptTrans(c, st, a.st, HostCall(c.h, a.vals, a.st, fuel).st);
      }
      ReadyLater(c, direct, env, st, ReadTarget(c.h, e, env, st, direct, fuel).st);
    } else {
      SoundEval(c, e, env, st, direct, fuel);
    }
  }

  // ----- statements -----

  /** A statement keeps the invariant; when control goes on, its new environment is as good as the old one. */
  ghost predicate GoodFlow(c: Ctx, direct: bool, st: State, r: Flow) {
    Kept(c, st, r.st) && (r.Next? || r.Continued? ==> Ready(c, direct, r.env, r.st))
  }

  lemma {:induction false} SoundExec(c: Ctx, s: Stat, env: Env, st: State, direct: bool, fuel: nat)
    requires c.Valid() && Ready(c, direct, env, st) && Fit(c, s, direct)
    ensures GoodFlow(c, direct, st, Exec(c.h, s, env, st, direct, fuel))
    decreases fuel, 1, s, 3
  {
    InvLater(c, st, st);
    match s
    case LocalStat(vars, values) => SoundLocal(c, s, env, st, direct, fuel);
    case LocalFunction(x, fn) => SoundLocalFunction(c, s, env, st, direct, fuel);
    case Assign(targets, values) => SoundAssign(c, s, env, st, direct, fuel);
    case Compound(_, _, _) => SoundCompound(c, s, env, st, direct, fuel);
    case FunctionStat(_, _) => SoundFunctionStat(c, s, env, st, direct, fuel);
    case ExprStat(e) => SoundEval(c, e, env, st, direct, fuel);
    case Block(_) => SoundBlock(c, s, env, st, direct, fuel);
    case If(_, _, _) => SoundIf(c, s, env, st, direct, fuel);
    case While(b, body) => SoundWhile(c, s, env, st, direct, fuel);
    case Repeat(_, _) => SoundRepeat(c, s, env, st, direct, fuel);
    case For(x, from, to, step, body) => SoundFor(c, s, env, st, direct, fuel);
    case ForIn(_, _, _) => SoundForIn(c, s, env, st, direct, fuel);
    case Return(values) => SoundList(c, values, env, st, direct, fuel);
    case Break =>
    case Continue =>
  }

  lemma {:induction false} SoundBlock(c: Ctx, s: Stat, env: Env, st: State, direct: bool, fuel: nat)
    requires c.Valid() && Ready(c, direct, env, st) && Fit(c, s, direct) && s.Block?
    ensures GoodFlow(c, direct, st, Exec(c.h, s, env, st, direct, fuel))
    decreases fuel, 1, s, 2
  {
    SoundExecList(c, s.stats, env, st, direct, fuel);
    ReadyAfter(c, direct, env, st, ExecList(c.h, s.stats, env, st, direct, fuel));
  }

  lemma {:induction false} SoundIf(c: Ctx, s: Stat, env: Env, st: State, direct: bool, fuel: nat)
    requires c.Valid() && Ready(c, direct, env, st) && Fit(c, s, direct) && s.If?
    ensures GoodFlow(c, direct, st, Exec(c.h, s, env, st, direct, fuel))
    decreases fuel, 1, s, 2
  {
    SoundEval(c, s.cond, env, st, direct, fuel);
    var a := Eval(c.h, s.cond, env, st, direct, fuel);
    if a.Done? {
      var taken := if Truthy(a.vals[0]) then s.yes else s.no;
      SoundExec(c, taken, env, a.st, direct, fuel);
      FlowTrans(c, direct, st, a.st, Exec(c.h, taken, env, a.st, direct, fuel));
    }
  }

  lemma ReadyAfter(c: Ctx, direct: bool, env: Env, st: State, r: Flow)
    requires c.Valid() && Ready(c, direct, env, st) && Kept(c, st, r.st)
    ensures Ready(c, direct, env, r.st)
  {
    ReadyLater(c, direct, env, st, r.st);
  }

  lemma FlowTrans(c: Ctx, direct: bool, a: State, b: State, r: Flow)
    requires Kept(c, a, b) && GoodFlow(c, direct, b, r)
    ensures GoodFlow(c, direct, a, r)
  {
    KeptTrans(c, a, b, r.st);
  }

  lemma {:induction false} SoundLocal(c: Ctx, s: Stat, env: Env, st: State, direct: bool, fuel: nat)
    requires c.Valid() && Ready(c, direct, env, st) && Fit(c, s, direct) && s.LocalStat?
    ensures GoodFlow(c, direct, st, Exec(c.h, s, env, st, direct, fuel))
    decreases fuel, 1, s, 2
  {
    SoundList(c, s.values, env, st, direct, fuel);
    var a := EvalList(c.h, s.values, env, st, direct, fuel);
    if a.Done? {
      DeclarationMatches(c.h.math, s.vars, s.values, Rest(s.values), a.vals, c.l0, c.w);
      DeclarationMatches(c.h.math, s.vars, s.values, Rest(s.values), a.vals, c.Ls(direct), c.w);
      BindReady(c, direct, s.vars, a.vals, env, a.st);
      KeptTrans(c, st, a.st, Bind(s.vars, a.vals, env, a.st).1);
    }
  }

  lemma {:induction false} SoundLocalFunction(c: Ctx, s: Stat, env: Env, st: State, direct: bool, fuel: nat)
    requires c.Valid() && Ready(c, direct, env, st) && Fit(c, s, direct) && s.LocalFunction?
    ensures GoodFlow(c, direct, st, Exec(c.h, s, env, st, direct, fuel))
    decreases fuel, 1, s, 2
  {
    UnknownMatches([s.x], [], c.l0);
    UnknownMatches([s.x], [], c.Ls(direct));
    BindReady(c, direct, [s.x], [], env, st);
    var (env', st') := Bind([s.x], [], env, st);
    SoundEval(c, s.fn, env', st', direct, fuel);
    var r := Eval(c.h, s.fn, env', st', direct, fuel);
    KeptTrans(c, st, st', r.st);
    if r.Done? {
      FreshCellStored(c, direct, env', st, r.st, |st.cells|, s.x, r.vals[0]);
    }
  }

  /** A cell that did not exist before may get its first value, if nothing is known of its local. */
  lemma FreshCellStored(c: Ctx, direct: bool, env: Env, st: State, now: State, a: nat, x: LocalId, v: Value)
    requires c.Valid() && Kept(c, st, now) && Ready(c, direct, env, now)
    requires |st.cells| <= a < |now.cells| && now.cells[a].owner == x
    requires Get(c.l0, x) == None && Get(c.Ls(direct), x) == None
    ensures
      var then_ := now.(cells := now.cells[a := Cell(x, v)]);
      Kept(c, st, then_) && Ready(c, direct, env, then_)
  {
    var then_ := now.(cells := now.cells[a := Cell(x, v)]);
    forall code <- then_.closures
      ensures CodeOk(c, code, then_)
    {
      assert CodeOk(c, code, now);
      assert EnvOk(c.l0, code.env, then_);
    }
  }

  lemma {:induction false} SoundAssign(c: Ctx, s: Stat, env: Env, st: State, direct: bool, fuel: nat)
    requires c.Valid() && Ready(c, direct, env, st) && Fit(c, s, direct) && s.Assign?
    ensures GoodFlow(c, direct, st, Exec(c.h, s, env, st, direct, fuel))
    decreases fuel, 1, s, 2
  {
    SoundTargets(c, s.targets, env, st, direct, fuel);
    var a := EvalTargets(c.h, s.targets, env, st, direct, fuel);
    if a.Done? {
      SoundList(c, s.values, env, a.st, direct, fuel);
      var b := EvalList(c.h, s.values, env, a.st, direct, fuel);
      KeptTrans(c, st, a.st, b.st);
      if b.Done? {
        SoundStore(c, s.targets, a.vals, b.vals, env, b.st, direct, fuel);
        KeptTrans(c, st, b.st, Store(c.h, s.targets, a.vals, b.vals, env, b.st, fuel).st);
      }
    }
  }

  lemma {:induction false} SoundFunctionStat(c: Ctx, s: Stat, env: Env, st: State, direct: bool, fuel: nat)
    requires c.Valid() && Ready(c, direct, env, st) && Fit(c, s, direct) && s.FunctionStat?
    ensures GoodFlow(c, direct, st, Exec(c.h, s, env, st, direct, fuel))
    decreases fuel, 1, s, 2
  {
    FunctionFits(c, s, direct);
    SoundPlace(c, s.name, env, st, direct, fuel);
    var a := EvalPlace(c.h, s.name, env, st, direct, fuel);
    if a.Done? {
      SoundEval(c, s.fn, env, a.st, direct, fuel);
      var b := Eval(c.h, s.fn, env, a.st, direct, fuel);
      KeptTrans(c, st, a.st, b.st);
      if b.Done? {
        SoundStoreOne(c, s.name, a.vals, b.vals[0], env, b.st, direct, fuel);
        KeptTrans(c, st, b.st, StoreOne(c.h, s.name, a.vals, b.vals[0], env, b.st, fuel).st);
      }
    }
  }

  lemma FunctionFits(c: Ctx, s: Stat, direct: bool)
    requires Fit(c, s, direct) && s.FunctionStat?
    ensures FitsE(c.h.math, s.name, c.k0, c.l0, c.w, true) && FitsE(c.h.math, s.name, c.Ks(direct), c.Ls(direct), c.w, false)
    ensures FitE(c, s.fn, direct) && WrittenTarget(s.name) <= c.w
  {
    assert WrittenTarget(s.name) <= Written(s);
  }

  lemma CompoundFits(c: Ctx, s: Stat, direct: bool)
    requires Fit(c, s, direct) && s.Compound?
    ensures FitE(c, s.target, direct) && FitE(c, s.value, direct) && WrittenTarget(s.target) <= c.w
  {
    assert WrittenTarget(s.target) <= Written(s);
  }

  lemma {:induction false} SoundCompound(c: Ctx, s: Stat, env: Env, st: State, direct: bool, fuel: nat)
    requires c.Valid() && Ready(c, direct, env, st) && Fit(c, s, direct) && s.Compound?
    ensures
      var r := ExecCompound(c.h, s, env, st, direct, fuel);
      Kept(c, st, r.st) && Ready(c, direct, env, r.st)
    decreases fuel, 1, s, 2
  {
    CompoundFits(c, s, direct);
    SoundReadTarget(c, s.target, env, st, direct, fuel);
    var a := ReadTarget(c.h, s.target, env, st, direct, fuel);
    if a.Done? {
      SoundEval(c, s.value, env, a.st, direct, fuel);
      var b := Eval(c.h, s.value, env, a.st, direct, fuel);
      KeptTrans(c, st, a.st, b.st);
      if b.Done? {
        SoundResult(c, s, a.vals, b.vals[0], env, b.st, direct, fuel);
        KeptTrans(c, st, b.st, ExecCompound(c.h, s, env, st, direct, fuel).st);
      }
    }
  }

  /** The operator of a compound assignment, and the store. */
  lemma SoundResult(c: Ctx, s: Stat, a: seq<Value>, b: Value, env: Env, st: State, direct: bool, fuel: nat)
    requires c.Valid() && Ready(c, direct, env, st) && s.Compound? && WrittenTarget(s.target) <= c.w && |a| > 0
    ensures
      var n := |a| - 1;
      var r := match BinaryValue(c.h.math, s.op, a[n], b)
        case Some(v) => StoreOne(c.h, s.target, a[..n], v, env, st, fuel)
        case None =>
          var x := HostCall(c.h, [a[n]] + [b], st, fuel);
          if x.Stop? then x else StoreOne(c.h, s.target, a[..n], First(x.vals), env, x.st, fuel);
      Kept(c, st, r.st) && Ready(c, direct, env, r.st)
    decreases fuel, 0, 3
  {
    var n := |a| - 1;
    match BinaryValue(c.h.math, s.op, a[n], b)
    case Some(v) => SoundStoreOne(c, s.target, a[..n], v, env, st, direct, fuel);
    case None =>
      SoundHostCall(c, [a[n]] + [b], st, fuel);
      var x := HostCall(c.h, [a[n]] + [b], st, fuel);
      ReadyLater(c, direct, env, st, x.st);
      if x.Done? {
        SoundStoreOne(c, s.target, a[..n], First(x.vals), env, x.st, direct, fuel);
        KeptTrans(c, st, x.st, StoreOne(c.h, s.target, a[..n], First(x.vals), env, x.st, fuel).st);
      }
  }

  lemma {:induction false} SoundRepeat(c: Ctx, s: Stat, env: Env, st: State, direct: bool, fuel: nat)
    requires c.Valid() && Ready(c, direct, env, st) && Fit(c, s, direct) && s.Repeat?
    ensures GoodFlow(c, direct, st, Exec(c.h, s, env, st, direct, fuel))
    decreases fuel, 1, s, 2
  {
    SoundOpen(c, s.body, env, st, direct, fuel);
    var r := ExecOpen(c.h, s.body, env, st, direct, fuel);
    ReadyAfter(c, direct, env, st, r);
    if r.Next? || r.Continued? {
      SoundUntil(c, s, r.env, env, r.st, direct, fuel);
      FlowTrans(c, direct, st, r.st, ExecUntil(c.h, s, r.env, env, r.st, direct, fuel));
    }
  }

  lemma {:induction false} SoundOpen(c: Ctx, body: Stat, env: Env, st: State, direct: bool, fuel: nat)
    requires c.Valid() && Ready(c, direct, env, st) && Fit(c, body, direct)
    ensures GoodFlow(c, direct, st, ExecOpen(c.h, body, env, st, direct, fuel))
    decreases fuel, 1, body, 4
  {
    if body.Block? {
      SoundExecList(c, body.stats, env, st, direct, fuel);
    } else {
      SoundExec(c, body, env, st, direct, fuel);
    }
  }

  lemma {:induction false} SoundUntil(c: Ctx, s: Stat, inner: Env, env: Env, st: State, direct: bool, fuel: nat)
    requires c.Valid() && Ready(c, direct, inner, st) && Ready(c, direct, env, st) && Fit(c, s, direct) && s.Repeat?
    ensures GoodFlow(c, direct, st, ExecUntil(c.h, s, inner, env, st, direct, fuel))
    decreases fuel, 1, s, 1
  {
    SoundEval(c, s.cond, inner, st, direct, fuel);
    var a := Eval(c.h, s.cond, inner, st, direct, fuel);
    ReadyLater(c, direct, env, st, a.st);
    if a.Done? && !Truthy(a.vals[0]) && fuel > 0 {
      SoundExec(c, s, env, a.st, direct, fuel - 1);
      FlowTrans(c, direct, st, a.st, Exec(c.h, s, env, a.st, direct, fuel - 1));
    }
  }

  lemma {:induction false} SoundForIn(c: Ctx, s: Stat, env: Env, st: State, direct: bool, fuel: nat)
    requires c.Valid() && Ready(c, direct, env, st) && Fit(c, s, direct) && s.ForIn?
    ensures GoodFlow(c, direct, st, Exec(c.h, s, env, st, direct, fuel))
    decreases fuel, 1, s, 2
  {
    SoundList(c, s.values, env, st, direct, fuel);
    var a := EvalList(c.h, s.values, env, st, direct, fuel);
    if a.Done? {
      var f, state, control := Nth(a.vals, 0), Nth(a.vals, 1), Nth(a.vals, 2);
      SoundForInLoop(c, s.vars, f, state, control, s.body, env, a.st, direct, fuel);
      FlowTrans(c, direct, st, a.st, ForInLoop(c.h, s.vars, f, state, control, s.body, env, a.st, direct, fuel));
    }
  }

  lemma {:induction false} SoundForInLoop(c: Ctx, vars: seq<LocalId>, f: Value, state: Value, control: Value, body: Stat,
                                          env: Env, st: State, direct: bool, fuel: nat)
    requires c.Valid() && Ready(c, direct, env, st) && Fit(c, body, direct)
    requires Unknown(vars, c.l0) && Unknown(vars, c.Ls(direct))
    ensures GoodFlow(c, direct, st, ForInLoop(c.h, vars, f, state, control, body, env, st, direct, fuel))
    decreases fuel, 1, body, 5
  {
    SoundApply(c, f, [state, control], st, fuel);
    var a := Apply(c.h, f, [state, control], st, fuel);
    ReadyLater(c, direct, env, st, a.st);
    if a.Done? && First(a.vals) != NIL {
      SoundNamedRound(c, vars, a.vals, body, env, a.st, direct, fuel);
      var (env', st') := Bind(vars, a.vals, env, a.st);
      var r := Exec(c.h, body, env', st', direct, fuel);
      KeptTrans(c, st, a.st, r.st);
      if fuel > 0 && (r.Next? || r.Continued?) {
        var rest := ForInLoop(c.h, vars, f, state, First(a.vals), body, env, r.st, direct, fuel - 1);
        SoundForInLoop(c, vars, f, state, First(a.vals), body, env, r.st, direct, fuel - 1);
        FlowTrans(c, direct, st, r.st, rest);
      }
    }
  }

  /** A round with new cells for its variables. */
  lemma {:induction false} SoundNamedRound(c: Ctx, vars: seq<LocalId>, vals: seq<Value>, body: Stat, env: Env, st: State, direct: bool, fuel: nat)
    requires c.Valid() && Ready(c, direct, env, st) && Fit(c, body, direct)
    requires Unknown(vars, c.l0) && Unknown(vars, c.Ls(direct))
    ensures
      var (env', st') := Bind(vars, vals, env, st);
      var r := Exec(c.h, body, env', st', direct, fuel);
      Kept(c, st, r.st) && Ready(c, direct, env, r.st)
    decreases fuel, 1, body, 4
  {
    UnknownMatches(vars, vals, c.l0);
    UnknownMatches(vars, vals, c.Ls(direct));
    BindReady(c, direct, vars, vals, env, st);
    var (env', st') := Bind(vars, vals, env, st);
    SoundExec(c, body, env', st', direct, fuel);
    var r := Exec(c.h, body, env', st', direct, fuel);
    KeptTrans(c, st, st', r.st);
    ReadyAfter(c, direct, env, st, r);
  }

  /** One round of a loop whose condition holds. */
  lemma {:induction false} SoundWhileRound(c: Ctx, s: Stat, env: Env, st: State, direct: bool, fuel: nat)
    requires c.Valid() && Ready(c, direct, env, st) && Fit(c, s, direct) && s.While?
    ensures
      var a := Eval(c.h, s.cond, env, st, direct, fuel);
      && Kept(c, st, a.st)
      && (a.Done? && Truthy(a.vals[0]) ==>
            var r := Exec(c.h, s.body, env, a.st, direct, fuel);
            Kept(c, st, r.st) && Ready(c, direct, env, r.st))
    decreases fuel, 1, s, 1
  {
    SoundEval(c, s.cond, env, st, direct, fuel);
    var a := Eval(c.h, s.cond, env, st, direct, fuel);
    if a.Done? && Truthy(a.vals[0]) {
      SoundExec(c, s.body, env, a.st, direct, fuel);
      var r := Exec(c.h, s.body, env, a.st, direct, fuel);
      KeptTrans(c, st, a.st, r.st);
      ReadyAfter(c, direct, env, a.st, r);
    }
  }

  lemma {:induction false} SoundWhile(c: Ctx, s: Stat, env: Env, st: State, direct: bool, fuel: nat)
    requires c.Valid() && Ready(c, direct, env, st) && Fit(c, s, direct) && s.While?
    ensures GoodFlow(c, direct, st, Exec(c.h, s, env, st, direct, fuel))
    decreases fuel, 1, s, 2
  {
    SoundWhileRound(c, s, env, st, direct, fuel);
    var a := Eval(c.h, s.cond, env, st, direct, fuel);
    if a.Done? && Truthy(a.vals[0]) {
      var r := Exec(c.h, s.body, env, a.st, direct, fuel);
      if fuel > 0 && (r.Next? || r.Continued?) {
        SoundExec(c, s, env, r.st, direct, fuel - 1);
        FlowTrans(c, direct, st, r.st, Exec(c.h, s, env, r.st, direct, fuel - 1));
      }
    }
  }

  /** The three operands of a numeric loop. */
  lemma {:induction false} SoundForHead(c: Ctx, s: Stat, env: Env, st: State, direct: bool, fuel: nat)
    requires c.Valid() && Ready(c, direct, env, st) && Fit(c, s, direct) && s.For?
    ensures
      var a := Eval(c.h, s.from, env, st, direct, fuel);
      && Kept(c, st, a.st)
      && (a.Done? ==>
            var b := Eval(c.h, s.to, env, a.st, direct, fuel);
            && Kept(c, st, b.st)
            && (b.Done? ==>
                  var d := EvalList(c.h, s.step, env, b.st, direct, fuel);
                  Kept(c, st, d.st) && Ready(c, direct, env, d.st)))
    decreases fuel, 1, s, 1
  {
    SoundEval(c, s.from, env, st, direct, fuel);
    var a := Eval(c.h, s.from, env, st, direct, fuel);
    if a.Done? {
      SoundEval(c, s.to, env, a.st, direct, fuel);
      var b := Eval(c.h, s.to, env, a.st, direct, fuel);
      KeptTrans(c, st, a.st, b.st);
      if b.Done? {
        SoundList(c, s.step, env, b.st, direct, fuel);
        KeptTrans(c, st, b.st, EvalList(c.h, s.step, env, b.st, direct, fuel).st);
      }
    }
  }

  /** The rounds, once the head is evaluated. */
  lemma {:induction false} SoundForRounds(c: Ctx, s: Stat, from: Value, to: Value, inc: Value, env: Env, st0: State, st: State,
                                          direct: bool, fuel: nat)
    requires c.Valid() && Kept(c, st0, st) && Ready(c, direct, env, st) && Fit(c, s, direct) && s.For?
    requires IsNumber(from) && IsNumber(to) && IsNumber(inc)
    ensures GoodFlow(c, direct, st0, ForLoop(c.h, s.x, from.c.n, to.c.n, inc.c.n, s.body, env, st, direct, fuel))
    decreases fuel, 1, s, 1
  {
    SoundForLoop(c, s.x, from.c.n, to.c.n, inc.c.n, s.body, env, st, direct, fuel);
    FlowTrans(c, direct, st0, st, ForLoop(c.h, s.x, from.c.n, to.c.n, inc.c.n, s.body, env, st, direct, fuel));
  }

  lemma {:induction false} SoundFor(c: Ctx, s: Stat, env: Env, st: State, direct: bool, fuel: nat)
    requires c.Valid() && Ready(c, direct, env, st) && Fit(c, s, direct) && s.For?
    ensures GoodFlow(c, direct, st, Exec(c.h, s, env, st, direct, fuel))
    decreases fuel, 1, s, 2
  {
    SoundForHead(c, s, env, st, direct, fuel);
    var a := Eval(c.h, s.from, env, st, direct, fuel);
    if a.Done? {
      var b := Eval(c.h, s.to, env, a.st, direct, fuel);
      if b.Done? {
        var d := EvalList(c.h, s.step, env, b.st, direct, fuel);
        if d.Done? {
          var inc := if s.step.NoExprs? then Prim(L.CNumber(L.Integral(1))) else First(d.vals);
          if IsNumber(a.vals[0]) && IsNumber(b.vals[0]) && IsNumber(inc) {
            SoundForRounds(c, s, a.vals[0], b.vals[0], inc, env, st, d.st, direct, fuel);
          }
        }
      }
    }
  }

  lemma {:induction false} SoundExecList(c: Ctx, ss: Stats, env: Env, st: State, direct: bool, fuel: nat)
    requires c.Valid() && Ready(c, direct, env, st) && FitList(c, ss, direct)
    ensures GoodFlow(c, direct, st, ExecList(c.h, ss, env, st, direct, fuel))
    decreases fuel, 1, ss, 0
  {
    InvLater(c, st, st);
    if ss.MoreStats? {
      SoundExec(c, ss.head, env, st, direct, fuel);
      var r := Exec(c.h, ss.head, env, st, direct, fuel);
      if r.Next? {
        SoundExecList(c, ss.tail, r.env, r.st, direct, fuel);
        FlowTrans(c, direct, st, r.st, ExecList(c.h, ss.tail, r.env, r.st, direct, fuel));
      }
    }
  }

  lemma {:induction false} SoundRound(c: Ctx, x: LocalId, i: L.Number, body: Stat, env: Env, st: State, direct: bool, fuel: nat)
    requires c.Valid() && Ready(c, direct, env, st) && Fit(c, body, direct)
    requires Get(c.l0, x) == None && Get(c.Ls(direct), x) == None
    ensures
      var r := Round(c.h, x, i, body, env, st, direct, fuel);
      Kept(c, st, r.st) && Ready(c, direct, env, r.st)
    decreases fuel, 1, body, 5
  {
    var v := Prim(L.CNumber(i));
    assert Unknown([x], c.l0) && Unknown([x], c.Ls(direct));
    SoundNamedRound(c, [x], [v], body, env, st, direct, fuel);
  }

  lemma {:induction false} SoundForLoop(c: Ctx, x: LocalId, i: L.Number, limit: L.Number, step: L.Number, body: Stat,
                                        env: Env, st: State, direct: bool, fuel: nat)
    requires c.Valid() && Ready(c, direct, env, st) && Fit(c, body, direct)
    requires Get(c.l0, x) == None && Get(c.Ls(direct), x) == None
    ensures GoodFlow(c, direct, st, ForLoop(c.h, x, i, limit, step, body, env, st, direct, fuel))
    decreases fuel, 1, body, 6
  {
    if Within(c.h.math, i, limit, step) {
      var r := Round(c.h, x, i, body, env, st, direct, fuel);
      var rest := r;
      SoundRound(c, x, i, body, env, st, direct, fuel);
      if GoesOn(r, fuel) {
        var next := c.h.math.arith(L.Add, i, step);
        rest := ForLoop(c.h, x, next, limit, step, body, env, r.st, direct, fuel - 1);
        SoundForLoop(c, x, next, limit, step, body, env, r.st, direct, fuel - 1);
        FlowTrans(c, direct, st, r.st, rest);
      }
      LoopRound(c.h, x, i, limit, step, body, env, st, direct, fuel, r, rest);
    } else {
      InvLater(c, st, st);
    }
  }
}
