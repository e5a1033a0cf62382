/**
 Programs as the constant folder sees them, every expression with its own identity, and what running one
 does. Locals live in cells, so that closures share them and may write them; whatever is not decided by
 the program itself is up to the host, which may call any closure back at any time.
 */
module FoldSource {
  import opened Results
  import L = LuaSource

  type LocalId = nat
  type NodeId = nat

  datatype Expr =
    | Group(id: NodeId, inner: Expr)
    | Literal(id: NodeId, c: L.Const)
    | LocalRef(id: NodeId, x: LocalId)
    | Global(id: NodeId, name: string)
    | Call(id: NodeId, fn: Expr, args: Exprs)
    | Index(id: NodeId, table: Expr, key: Expr)
    | Function(id: NodeId, params: seq<LocalId>, body: Stat)
    | Unary(id: NodeId, uop: L.UnaryOp, operand: Expr)
    | Binary(id: NodeId, bop: L.BinaryOp, left: Expr, right: Expr)
    | IfElse(id: NodeId, cond: Expr, yes: Expr, no: Expr)
    | TypeAssertion(id: NodeId, inner: Expr)
    | Varargs(id: NodeId)
    | Table(id: NodeId, items: Exprs, keyed: seq<bool>)
    | InterpString(id: NodeId, text: string, parts: Exprs)

  datatype Exprs = NoExprs | MoreExprs(head: Expr, tail: Exprs)

  datatype Stat =
    | LocalStat(vars: seq<LocalId>, values: Exprs)
    | LocalFunction(x: LocalId, fn: Expr)
    | Assign(targets: Exprs, values: Exprs)
    | Compound(op: L.BinaryOp, target: Expr, value: Expr)
    | FunctionStat(name: Expr, fn: Expr)
    | ExprStat(e: Expr)
    | Block(stats: Stats)
    | If(cond: Expr, yes: Stat, no: Stat)
    | While(cond: Expr, body: Stat)
    | Repeat(body: Stat, cond: Expr)
    | For(x: LocalId, from: Expr, to: Expr, step: Exprs, body: Stat)
    | ForIn(vars: seq<LocalId>, values: Exprs, body: Stat)
    | Return(values: Exprs)
    | Break
    | Continue

  datatype Stats = NoStats | MoreStats(head: Stat, tail: Stats)

  function Count(es: Exprs): nat {
    if es.NoExprs? then 0 else 1 + Count(es.tail)
  }

  /** Expressions that can have any number of values, where they come last. */
  predicate IsMulti(e: Expr) {
    e.Call? || e.Varargs?
  }

  /** A table whose last entry has no key takes all values of it. */
  predicate OpenEnded(keyed: seq<bool>) {
    keyed != [] && !keyed[|keyed| - 1]
  }

  // ----- values and the host -----

  datatype Value = Prim(c: L.Const) | Closure(k: nat) | Foreign(n: nat)

  const NIL := Prim(L.CNil)

  predicate Truthy(v: Value) {
    v.Prim? ==> L.Truthful(v.c)
  }

  /**
   The arithmetic of numbers, the same when folding and when running; which calls are to built-in functions, and what these
   give for constants, if they give a constant. A constant of a library is one that is given for nothing.
   */
  datatype Math = Math(
    arith: (L.ArithOp, L.Number, L.Number) -> L.Number,
    neg: L.Number -> L.Number,
    length: string -> L.Number,
    lt: (L.Number, L.Number) -> bool,
    le: (L.Number, L.Number) -> bool,
    builtins: set<NodeId>,
    builtin: (NodeId, seq<L.Const>) -> Option<L.Const>)

  datatype Event =
    | Node(direct: bool, id: NodeId, v: Value)
    | Asked(operands: seq<Value>)

  datatype Action = Reply(vals: seq<Value>) | Invoke(k: nat, args: seq<Value>) | Raise

  /** What the host does next depends on everything that happened. */
  datatype Host = Host(math: Math, answer: seq<Event> -> Action)

  datatype Cell = Cell(owner: LocalId, value: Value)

  type Env = map<LocalId, nat>

  datatype Code = Code(params: seq<LocalId>, body: Stat, env: Env)

  datatype State = State(cells: seq<Cell>, closures: seq<Code>, log: seq<Event>)

  datatype Res = Done(vals: seq<Value>, st: State) | Stop(st: State)

  datatype Flow =
    | Next(env: Env, st: State)
    | Broke(st: State)
    | Continued(env: Env, st: State)
    | Returned(vals: seq<Value>, st: State)
    | Stopped(st: State)

  function First(vals: seq<Value>): Value {
    if vals == [] then NIL else vals[0]
  }

  function Logged(r: Res, direct: bool, id: NodeId): Res {
    if r.Done? then r.(st := r.st.(log := r.st.log + [Node(direct, id, First(r.vals))])) else r
  }

  function One(r: Res): Res {
    if r.Done? then r.(vals := [First(r.vals)]) else r
  }

  /** New cells for the locals; missing values are nil. */
  function Bind(vars: seq<LocalId>, vals: seq<Value>, env: Env, st: State): (r: (Env, State)) {
    if vars == [] then (env, st)
    else
      Bind(vars[1..], if vals == [] then [] else vals[1..],
           env[vars[0] := |st.cells|], st.(cells := st.cells + [Cell(vars[0], First(vals))]))
  }

  // ----- operators -----

  /** A unary operator on a value, unless it is the host that decides. */
  function UnaryValue(m: Math, op: L.UnaryOp, v: Value): Option<Value> {
    match op
    case Not => Some(Prim(L.CBool(!Truthy(v))))
    case Minus => if v.Prim? && v.c.CNumber? then Some(Prim(L.CNumber(m.neg(v.c.n)))) else None
    case Len => if v.Prim? && v.c.CString? then Some(Prim(L.CNumber(m.length(v.c.s)))) else None
  }

  /** A comparison of numbers; the greater ones swap their operands. */
  predicate Compared(m: Math, op: L.CompareOp, a: L.Number, b: L.Number) {
    match op
    case Lt => m.lt(a, b)
    case Le => m.le(a, b)
    case Gt => m.lt(b, a)
    case Ge => m.le(b, a)
    case Eq => L.NumberEq(a, b)
    case Ne => !L.NumberEq(a, b)
  }

  /** A strict binary operator on values, unless it is the host that decides. */
  function BinaryValue(m: Math, op: L.BinaryOp, a: Value, b: Value): Option<Value> {
    var numbers := a.Prim? && b.Prim? && a.c.CNumber? && b.c.CNumber?;
    match op
    case Arith(o) => if numbers then Some(Prim(L.CNumber(m.arith(o, a.c.n, b.c.n)))) else None
    case Compare(o) =>
      if (o.Eq? || o.Ne?) && a.Prim? && b.Prim? then Some(Prim(L.CBool(o.Eq? == L.ConstEq(a.c, b.c))))
      else if numbers then Some(Prim(L.CBool(Compared(m, o, a.c.n, b.c.n))))
      else None
    case _ => None
  }

  predicate AllPrim(vals: seq<Value>) {
    forall v <- vals :: v.Prim?
  }

  function Consts(vals: seq<Value>): (r: seq<L.Const>)
    requires AllPrim(vals)
    ensures |r| == |vals| && forall i :: 0 <= i < |r| ==> vals[i] == Prim(r[i])
  {
    if vals == [] then [] else [vals[0].c] + Consts(vals[1..])
  }

  /** What a built-in function gives, unless it is the host that decides. */
  function BuiltinValue(m: Math, call: NodeId, vals: seq<Value>): Option<Value> {
    if !AllPrim(vals) then None else
      match m.builtin(call, Consts(vals))
      case None => None
      case Some(c) => Some(Prim(c))
  }

  // ----- running -----

  /** An operation of the host's; it may call closures any number of times before it answers. */
  function HostCall(h: Host, operands: seq<Value>, st: State, fuel: nat): (r: Res)
    decreases fuel, 0, 0
  {
    var asked := st.(log := st.log + [Asked(operands)]);
    match h.answer(asked.log)
    case Reply(vals) => Done(vals, asked)
    case Raise => Stop(asked)
    case Invoke(k, args) =>
      if fuel == 0 then Stop(asked) else
        var r := CallClosure(h, k, args, asked, fuel - 1);
        if r.Stop? then r else HostCall(h, operands + r.vals, r.st, fuel - 1)
  }

  function CallClosure(h: Host, k: nat, args: seq<Value>, st: State, fuel: nat): (r: Res)
    decreases fuel, 2
  {
    if k >= |st.closures| then Stop(st) else
      var code := st.closures[k];
      var (env, bound) := Bind(code.params, args, code.env, st);
      match Exec(h, code.body, env, bound, false, fuel)
      case Returned(vals, st') => Done(vals, st')
      case Next(_, st') => Done([], st')
      case Broke(st') => Stop(st')
      case Continued(_, st') => Stop(st')
      case Stopped(st') => Stop(st')
  }

  /** Only closures of the program are called without the host. */
  function Apply(h: Host, f: Value, args: seq<Value>, st: State, fuel: nat): (r: Res)
    decreases fuel, 0, 1
  {
    if !f.Closure? then HostCall(h, [f] + args, st, fuel)
    else if fuel == 0 then Stop(st)
    else CallClosure(h, f.k, args, st, fuel - 1)
  }

  /** The single value of an expression, noted in the log. */
  function Eval(h: Host, e: Expr, env: Env, st: State, direct: bool, fuel: nat): (r: Res)
    ensures r.Done? ==> |r.vals| == 1
    decreases fuel, 1, e, 2
  {
    Logged(One(EvalRaw(h, e, env, st, direct, fuel)), direct, e.id)
  }

  function EvalRaw(h: Host, e: Expr, env: Env, st: State, direct: bool, fuel: nat): (r: Res)
    decreases fuel, 1, e, 1
  {
    match e
    case Group(_, x) => Eval(h, x, env, st, direct, fuel)
    case Literal(_, c) => Done([Prim(c)], st)
    case LocalRef(_, x) => if x in env && env[x] < |st.cells| then Done([st.cells[env[x]].value], st) else Stop(st)
    case Global(_, name) => HostCall(h, [Prim(L.CString(name))], st, fuel)
    case Call(_, _, _) => EvalCall(h, e, env, st, direct, fuel)
    case Index(id, t, k) =>
      if id in h.math.builtins && h.math.builtin(id, []).Some? then Done([Prim(h.math.builtin(id, []).value)], st) else
        var a := Eval(h, t, env, st, direct, fuel);
        if a.Stop? then a else
          var b := Eval(h, k, env, a.st, direct, fuel);
          if b.Stop? then b else HostCall(h, a.vals + b.vals, b.st, fuel)
    case Function(_, params, body) =>
      Done([Closure(|st.closures|)], st.(closures := st.closures + [Code(params, body, env)]))
    case Unary(_, op, x) =>
      var a := Eval(h, x, env, st, direct, fuel);
      if a.Stop? then a else
        (match UnaryValue(h.math, op, a.vals[0])
         case Some(v) => Done([v], a.st)
         case None => HostCall(h, a.vals, a.st, fuel))
    case Binary(_, op, l, r) =>
      var a := Eval(h, l, env, st, direct, fuel);
      if a.Stop? then a
      else if op.And? then if Truthy(a.vals[0]) then Eval(h, r, env, a.st, direct, fuel) else a
      else if op.Or? then if Truthy(a.vals[0]) then a else Eval(h, r, env, a.st, direct, fuel)
      else
        var b := Eval(h, r, env, a.st, direct, fuel);
        if b.Stop? then b else
          (match BinaryValue(h.math, op, a.vals[0], b.vals[0])
           case Some(v) => Done([v], b.st)
           case None => HostCall(h, a.vals + b.vals, b.st, fuel))
    case IfElse(_, c, t, f) =>
      var a := Eval(h, c, env, st, direct, fuel);
      if a.Stop? then a else Eval(h, if Truthy(a.vals[0]) then t else f, env, a.st, direct, fuel)
    case TypeAssertion(_, x) => Eval(h, x, env, st, direct, fuel)
    case Varargs(_) => HostCall(h, [], st, fuel)
    case Table(_, items, keyed) =>
      var a := if OpenEnded(keyed) then EvalList(h, items, env, st, direct, fuel) else EvalEach(h, items, env, st, direct, fuel);
      if a.Stop? then a else HostCall(h, a.vals, a.st, fuel)
    case InterpString(_, text, parts) =>
      var a := EvalEach(h, parts, env, st, direct, fuel);
      if a.Stop? then a else HostCall(h, [Prim(L.CString(text))] + a.vals, a.st, fuel)
  }

  /** A call gives any number of values; one to a built-in function looks the function up only if it cannot do without. */
  function EvalCall(h: Host, call: Expr, env: Env, st: State, direct: bool, fuel: nat): (r: Res)
    requires call.Call?
    decreases fuel, 1, call, 0
  {
    if call.id in h.math.builtins then
      var a := EvalList(h, call.args, env, st, direct, fuel);
      if a.Stop? then a else
        (match BuiltinValue(h.math, call.id, a.vals)
         case Some(v) => Done([v], a.st)
         case None =>
           var f := Eval(h, call.fn, env, a.st, direct, fuel);
           if f.Stop? then f else Apply(h, f.vals[0], a.vals, f.st, fuel))
    else
      var f := Eval(h, call.fn, env, st, direct, fuel);
      if f.Stop? then f else
        var a := EvalList(h, call.args, env, f.st, direct, fuel);
        if a.Stop? then a else Apply(h, f.vals[0], a.vals, a.st, fuel)
  }

  /** One value for each expression, but all the values of a call that comes last. */
  function EvalList(h: Host, es: Exprs, env: Env, st: State, direct: bool, fuel: nat): (r: Res)
    decreases fuel, 1, es, 0
  {
    match es
    case NoExprs => Done([], st)
    case MoreExprs(e, rest) =>
      if rest.NoExprs? && IsMulti(e) then Logged(EvalRaw(h, e, env, st, direct, fuel), direct, e.id)
      else
        var a := Eval(h, e, env, st, direct, fuel);
        if a.Stop? then a else
          var b := EvalList(h, rest, env, a.st, direct, fuel);
          if b.Stop? then b else b.(vals := a.vals + b.vals)
  }

  /** One value for each expression. */
  function EvalEach(h: Host, es: Exprs, env: Env, st: State, direct: bool, fuel: nat): (r: Res)
    decreases fuel, 1, es, 0
  {
    match es
    case NoExprs => Done([], st)
    case MoreExprs(e, rest) =>
      var a := Eval(h, e, env, st, direct, fuel);
      if a.Stop? then a else
        var b := EvalEach(h, rest, env, a.st, direct, fuel);
        if b.Stop? then b else b.(vals := a.vals + b.vals)
  }

  /** The operands of a target, which only an index has. */
  function EvalPlace(h: Host, e: Expr, env: Env, st: State, direct: bool, fuel: nat): (r: Res)
    decreases fuel, 1, e, 3
  {
    if !e.Index? then Done([], st) else
      var a := Eval(h, e.table, env, st, direct, fuel);
      if a.Stop? then a else
        var b := Eval(h, e.key, env, a.st, direct, fuel);
        if b.Stop? then b else b.(vals := a.vals + b.vals)
  }

  function EvalTargets(h: Host, es: Exprs, env: Env, st: State, direct: bool, fuel: nat): (r: Res)
    decreases fuel, 1, es, 0
  {
    match es
    case NoExprs => Done([], st)
    case MoreExprs(e, rest) =>
      var a := EvalPlace(h, e, env, st, direct, fuel);
      if a.Stop? then a else
        var b := EvalTargets(h, rest, env, a.st, direct, fuel);
        if b.Stop? then b else b.(vals := a.vals + b.vals)
  }

  /** Only a local is stored without the host. */
  function StoreOne(h: Host, e: Expr, operands: seq<Value>, v: Value, env: Env, st: State, fuel: nat): (r: Res)
    decreases fuel, 0, 1
  {
    if e.LocalRef? then
      if e.x in env && env[e.x] < |st.cells| then
        var a := env[e.x];
        Done([], st.(cells := st.cells[a := st.cells[a].(value := v)]))
      else Stop(st)
    else HostCall(h, operands + [v], st, fuel)
  }

  /** Stores the values, one after the other. */
  function Store(h: Host, es: Exprs, operands: seq<Value>, vals: seq<Value>, env: Env, st: State, fuel: nat): (r: Res)
    decreases fuel, 1, es, 0
  {
    match es
    case NoExprs => Done([], st)
    case MoreExprs(e, rest) =>
      var n := if e.Index? && |operands| >= 2 then 2 else 0;
      var r := StoreOne(h, e, operands[..n], First(vals), env, st, fuel);
      if r.Stop? then r else Store(h, rest, operands[n..], if vals == [] then [] else vals[1..], env, r.st, fuel)
  }

  /** The operands of a target that is read and then written, and its value. */
  function ReadTarget(h: Host, e: Expr, env: Env, st: State, direct: bool, fuel: nat): (r: Res)
    ensures r.Done? ==> |r.vals| > 0
    decreases fuel, 1, e, 4
  {
    if e.Index? then
      var a := EvalPlace(h, e, env, st, direct, fuel);
      if a.Stop? then a else
        var b := HostCall(h, a.vals, a.st, fuel);
        if b.Stop? then b else b.(vals := a.vals + [First(b.vals)])
    else Eval(h, e, env, st, direct, fuel)
  }

  /** Reads the target, then evaluates the other operand, and stores the result of the operator. */
  function ExecCompound(h: Host, s: Stat, env: Env, st: State, direct: bool, fuel: nat): (r: Res)
    requires s.Compound?
    decreases fuel, 1, s, 0
  {
    var a := ReadTarget(h, s.target, env, st, direct, fuel);
    if a.Stop? then a else
      var b := Eval(h, s.value, env, a.st, direct, fuel);
      if b.Stop? then b else
        var n := |a.vals| - 1;
        match BinaryValue(h.math, s.op, a.vals[n], b.vals[0])
        case Some(v) => StoreOne(h, s.target, a.vals[..n], v, env, b.st, fuel)
        case None =>
          var c := HostCall(h, [a.vals[n]] + b.vals, b.st, fuel);
          if c.Stop? then c else StoreOne(h, s.target, a.vals[..n], First(c.vals), env, c.st, fuel)
  }

  function Exec(h: Host, s: Stat, env: Env, st: State, direct: bool, fuel: nat): (r: Flow)
    decreases fuel, 1, s, 1
  {
    match s
    case LocalStat(vars, values) =>
      (match EvalList(h, values, env, st, direct, fuel)
       case Stop(st') => Stopped(st')
       case Done(vals, st') => var (env', st'') := Bind(vars, vals, env, st'); Next(env', st''))
    case LocalFunction(x, fn) =>
      var (env', st') := Bind([x], [], env, st);
      (match Eval(h, fn, env', st', direct, fuel)
       case Stop(st'') => Stopped(st'')
       case Done(vals, st'') =>
         if |st.cells| < |st''.cells| then
           Next(env', st''.(cells := st''.cells[|st.cells| := Cell(x, vals[0])]))
         else Stopped(st''))
    case Assign(targets, values) =>
      var a := EvalTargets(h, targets, env, st, direct, fuel);
      if a.Stop? then Stopped(a.st) else
        var b := EvalList(h, values, env, a.st, direct, fuel);
        if b.Stop? then Stopped(b.st) else
          (match Store(h, targets, a.vals, b.vals, env, b.st, fuel)
           case Done(_, st') => Next(env, st')
           case Stop(st') => Stopped(st'))
    case Compound(_, _, _) =>
      (match ExecCompound(h, s, env, st, direct, fuel)
       case Done(_, st') => Next(env, st')
       case Stop(st') => Stopped(st'))
    case FunctionStat(name, fn) =>
      var a := EvalPlace(h, name, env, st, direct, fuel);
      if a.Stop? then Stopped(a.st) else
        var b := Eval(h, fn, env, a.st, direct, fuel);
        if b.Stop? then Stopped(b.st) else
          (match StoreOne(h, name, a.vals, b.vals[0], env, b.st, fuel)
           case Done(_, st') => Next(env, st')
           case Stop(st') => Stopped(st'))
    case ExprStat(e) =>
      (match Eval(h, e, env, st, direct, fuel)
       case Done(_, st') => Next(env, st')
       case Stop(st') => Stopped(st'))
    case Block(stats) =>
      (match ExecList(h, stats, env, st, direct, fuel)
       case Next(_, st') => Next(env, st')
       case Broke(st') => Broke(st')
       case Continued(env', st') => Continued(env', st')
       case Returned(vals, st') => Returned(vals, st')
       case Stopped(st') => Stopped(st'))
    case If(c, yes, no) =>
      (match Eval(h, c, env, st, direct, fuel)
       case Stop(st') => Stopped(st')
       case Done(vals, st') => Exec(h, if Truthy(vals[0]) then yes else no, env, st', direct, fuel))
    case While(c, body) =>
      (match Eval(h, c, env, st, direct, fuel)
       case Stop(st') => Stopped(st')
       case Done(vals, st') =>
         if !Truthy(vals[0]) then Next(env, st') else
           (match Exec(h, body, env, st', direct, fuel)
            case Broke(st'') => Next(env, st'')
            case Returned(vals', st'') => Returned(vals', st'')
            case Stopped(st'') => Stopped(st'')
            case Next(_, st'') => if fuel == 0 then Stopped(st'') else Exec(h, s, env, st'', direct, fuel - 1)
            case Continued(_, st'') => if fuel == 0 then Stopped(st'') else Exec(h, s, env, st'', direct, fuel - 1)))
    case Repeat(body, _) =>
      (match ExecOpen(h, body, env, st, direct, fuel)
       case Broke(st') => Next(env, st')
       case Returned(vals, st') => Returned(vals, st')
       case Stopped(st') => Stopped(st')
       case Next(inner, st') => ExecUntil(h, s, inner, env, st', direct, fuel)
       case Continued(inner, st') => ExecUntil(h, s, inner, env, st', direct, fuel))
    case For(x, from, to, step, body) =>
      var a := Eval(h, from, env, st, direct, fuel);
      if a.Stop? then Stopped(a.st) else
        var b := Eval(h, to, env, a.st, direct, fuel);
        if b.Stop? then Stopped(b.st) else
          var c := EvalList(h, step, env, b.st, direct, fuel);
          if c.Stop? then Stopped(c.st) else
            var inc := if step.NoExprs? then Prim(L.CNumber(L.Integral(1))) else First(c.vals);
            if IsNumber(a.vals[0]) && IsNumber(b.vals[0]) && IsNumber(inc)
            then ForLoop(h, x, a.vals[0].c.n, b.vals[0].c.n, inc.c.n, body, env, c.st, direct, fuel)
            else Stopped(c.st)
    case ForIn(vars, values, body) =>
      (match EvalList(h, values, env, st, direct, fuel)
       case Stop(st') => Stopped(st')
       case Done(vals, st') => ForInLoop(h, vars, Nth(vals, 0), Nth(vals, 1), Nth(vals, 2), body, env, st', direct, fuel))
    case Return(values) =>
      (match EvalList(h, values, env, st, direct, fuel)
       case Done(vals, st') => Returned(vals, st')
       case Stop(st') => Stopped(st'))
    case Break => Broke(st)
    case Continue => Continued(env, st)
  }

  /** The condition at the end of a round sees the locals of the body. */
  function ExecUntil(h: Host, s: Stat, inner: Env, env: Env, st: State, direct: bool, fuel: nat): (r: Flow)
    requires s.Repeat?
    decreases fuel, 1, s, 0
  {
    match Eval(h, s.cond, inner, st, direct, fuel)
    case Stop(st') => Stopped(st')
    case Done(vals, st') =>
      if Truthy(vals[0]) then Next(env, st')
      else if fuel == 0 then Stopped(st')
      else Exec(h, s, env, st', direct, fuel - 1)
  }

  predicate IsNumber(v: Value) {
    v.Prim? && v.c.CNumber?
  }

  function Nth(vals: seq<Value>, i: nat): Value {
    if i < |vals| then vals[i] else NIL
  }

  /** A block whose locals stay in scope, also where it is left early. */
  function ExecOpen(h: Host, body: Stat, env: Env, st: State, direct: bool, fuel: nat): (r: Flow)
    decreases fuel, 1, body, 2
  {
    if body.Block? then ExecList(h, body.stats, env, st, direct, fuel) else Exec(h, body, env, st, direct, fuel)
  }

  function ExecList(h: Host, ss: Stats, env: Env, st: State, direct: bool, fuel: nat): (r: Flow)
    decreases fuel, 1, ss, 0
  {
    match ss
    case NoStats => Next(env, st)
    case MoreStats(s, rest) =>
      (match Exec(h, s, env, st, direct, fuel)
       case Next(env', st') => ExecList(h, rest, env', st', direct, fuel)
       case Broke(st') => Broke(st')
       case Continued(env', st') => Continued(env', st')
       case Returned(vals, st') => Returned(vals, st')
       case Stopped(st') => Stopped(st'))
  }

  predicate Within(m: Math, i: L.Number, limit: L.Number, step: L.Number) {
    if m.lt(L.Integral(0), step) then m.le(i, limit) else m.le(limit, i)
  }

  /** Every round has a new cell for the loop variable. */
  function ForLoop(h: Host, x: LocalId, i: L.Number, limit: L.Number, step: L.Number, body: Stat,
                   env: Env, st: State, direct: bool, fuel: nat): (r: Flow)
    decreases fuel, 1, body, 2
  {
    if !Within(h.math, i, limit, step) then Next(env, st) else
      var (env', st') := Bind([x], [Prim(L.CNumber(i))], env, st);
      match Exec(h, body, env', st', direct, fuel)
      case Broke(st'') => Next(env, st'')
      case Returned(vals, st'') => Returned(vals, st'')
      case Stopped(st'') => Stopped(st'')
      case Next(_, st'') =>
        if fuel == 0 then Stopped(st'')
        else ForLoop(h, x, h.math.arith(L.Add, i, step), limit, step, body, env, st'', direct, fuel - 1)
      case Continued(_, st'') =>
        if fuel == 0 then Stopped(st'')
        else ForLoop(h, x, h.math.arith(L.Add, i, step), limit, step, body, env, st'', direct, fuel - 1)
  }

  /** The iterator is called before every round, until its first result is nil. */
  function ForInLoop(h: Host, vars: seq<LocalId>, f: Value, state: Value, control: Value, body: Stat,
                     env: Env, st: State, direct: bool, fuel: nat): (r: Flow)
    decreases fuel, 1, body, 2
  {
    var a := Apply(h, f, [state, control], st, fuel);
    if a.Stop? then Stopped(a.st)
    else if First(a.vals) == NIL then Next(env, a.st)
    else
      var (env', st') := Bind(vars, a.vals, env, a.st);
      match Exec(h, body, env', st', direct, fuel)
      case Broke(st'') => Next(env, st'')
      case Returned(vals, st'') => Returned(vals, st'')
      case Stopped(st'') => Stopped(st'')
      case Next(_, st'') =>
        if fuel == 0 then Stopped(st'') else ForInLoop(h, vars, f, state, First(a.vals), body, env, st'', direct, fuel - 1)
      case Continued(_, st'') =>
        if fuel == 0 then Stopped(st'') else ForInLoop(h, vars, f, state, First(a.vals), body, env, st'', direct, fuel - 1)
  }

  // ----- a loop, round by round -----

  /** What follows a round, given what the rest of the loop does. */
  function RoundEnd(r: Flow, env: Env, fuel: nat, rest: Flow): Flow {
    match r
    case Broke(st) => Next(env, st)
    case Returned(vals, st) => r
    case Stopped(st) => r
    case Next(_, st) => if fuel == 0 then Stopped(st) else rest
    case Continued(_, st) => if fuel == 0 then Stopped(st) else rest
  }

  predicate GoesOn(r: Flow, fuel: nat) {
    fuel > 0 && (r.Next? || r.Continued?)
  }

  function Round(h: Host, x: LocalId, i: L.Number, body: Stat, env: Env, st: State, direct: bool, fuel: nat): Flow {
    var (env', st') := Bind([x], [Prim(L.CNumber(i))], env, st);
    Exec(h, body, env', st', direct, fuel)
  }

  lemma LoopRound(h: Host, x: LocalId, i: L.Number, to: L.Number, step: L.Number, body: Stat, env: Env, st: State, direct: bool,
                  fuel: nat, r: Flow, rest: Flow)
    requires Within(h.math, i, to, step) && r == Round(h, x, i, body, env, st, direct, fuel)
    requires GoesOn(r, fuel) ==>
               rest == ForLoop(h, x, h.math.arith(L.Add, i, step), to, step, body, env, r.st, direct, fuel - 1)
    ensures ForLoop(h, x, i, to, step, body, env, st, direct, fuel) == RoundEnd(r, env, fuel, rest)
  {
  }
}
