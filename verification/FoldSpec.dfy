/** Constant folding as functions, and what it means for recorded constants to fit a program. */
module FoldSpec {
  import opened Results
  import L = LuaSource
  import opened FoldSource

  /** Unknown is a value of its own: a map may hold it, which reads like holding nothing. */
  type Constant = Option<L.Const>

  type Constants = map<NodeId, Constant>

  type Locals = map<LocalId, Constant>

  function Get<Key>(m: map<Key, Constant>, k: Key): Constant {
    if k in m then m[k] else None
  }

  // ----- folding one operator -----

  function FoldUnary(m: Math, op: L.UnaryOp, arg: L.Const): Constant {
    match op
    case Not => Some(L.CBool(!L.Truthful(arg)))
    case Minus => if arg.CNumber? then Some(L.CNumber(m.neg(arg.n))) else None
    case Len => if arg.CString? then Some(L.CNumber(m.length(arg.s))) else None
  }

  /** The right operand need not be known to fold `and` and `or`. */
  function FoldBinary(m: Math, op: L.BinaryOp, la: L.Const, ra: Constant): Constant {
    match op
    case And => if L.Truthful(la) then ra else Some(la)
    case Or => if L.Truthful(la) then Some(la) else ra
    case Concat => None
    case Arith(o) => if la.CNumber? && ra.Some? && ra.value.CNumber? then Some(L.CNumber(m.arith(o, la.n, ra.value.n))) else None
    case Compare(o) =>
      if ra.None? then None
      else if o.Eq? then Some(L.CBool(L.ConstEq(la, ra.value)))
      else if o.Ne? then Some(L.CBool(!L.ConstEq(la, ra.value)))
      else if la.CNumber? && ra.value.CNumber? then Some(L.CBool(Compared(m, o, la.n, ra.value.n)))
      else None
  }

  // ----- folding an expression, the constants of the locals given -----

  function Fold(m: Math, e: Expr, ls: Locals): Constant {
    match e
    case Group(_, x) => Fold(m, x, ls)
    case Literal(_, c) => Some(c)
    case LocalRef(_, x) => Get(ls, x)
    case Unary(_, op, x) =>
      var arg := Fold(m, x, ls);
      if arg.Some? then FoldUnary(m, op, arg.value) else None
    case Binary(_, op, l, r) =>
      var la, ra := Fold(m, l, ls), Fold(m, r, ls);
      if la.Some? then FoldBinary(m, op, la.value, ra) else None
    case IfElse(_, c, t, f) =>
      var cond, yes, no := Fold(m, c, ls), Fold(m, t, ls), Fold(m, f, ls);
      if cond.Some? then if L.Truthful(cond.value) then yes else no else None
    case TypeAssertion(_, x) => Fold(m, x, ls)
    case Call(id, _, args) =>
      var cs := FoldAll(m, args, ls);
      if id in m.builtins && cs.Some? then m.builtin(id, cs.value) else None
    case Index(id, _, _) => if id in m.builtins then m.builtin(id, []) else None
    case _ => None
  }

  /** The constants of all expressions, if all have one. */
  function FoldAll(m: Math, es: Exprs, ls: Locals): (r: Option<seq<L.Const>>)
    ensures r.Some? ==> |r.value| == Count(es)
  {
    match es
    case NoExprs => Some([])
    case MoreExprs(e, rest) =>
      var c, cs := Fold(m, e, ls), FoldAll(m, rest, ls);
      if c.Some? && cs.Some? then Some([c.value] + cs.value) else None
  }

  // ----- which locals are ever written -----

  function WrittenE(e: Expr): set<LocalId>
    decreases e, 0
  {
    match e
    case Group(_, x) => WrittenE(x)
    case Call(_, fn, args) => WrittenE(fn) + WrittenEs(args)
    case Index(_, t, k) => WrittenE(t) + WrittenE(k)
    case Function(_, _, body) => Written(body)
    case Unary(_, _, x) => WrittenE(x)
    case Binary(_, _, l, r) => WrittenE(l) + WrittenE(r)
    case IfElse(_, c, t, f) => WrittenE(c) + WrittenE(t) + WrittenE(f)
    case TypeAssertion(_, x) => WrittenE(x)
    case Table(_, items, _) => WrittenEs(items)
    case InterpString(_, _, parts) => WrittenEs(parts)
    case _ => {}
  }

  function WrittenEs(es: Exprs): set<LocalId> {
    if es.NoExprs? then {} else WrittenE(es.head) + WrittenEs(es.tail)
  }

  /** A local that is a target is written; any other target is searched for functions that write. */
  function WrittenTarget(e: Expr): set<LocalId>
    decreases e, 1
  {
    if e.LocalRef? then {e.x} else WrittenE(e)
  }

  function WrittenTargets(es: Exprs): set<LocalId> {
    match es
    case NoExprs => {}
    case MoreExprs(e, rest) => WrittenTarget(e) + WrittenTargets(rest)
  }

  function Written(s: Stat): set<LocalId> {
    match s
    case LocalStat(_, values) => WrittenEs(values)
    case LocalFunction(_, fn) => WrittenE(fn)
    case Assign(targets, values) => WrittenTargets(targets) + WrittenEs(values)
    case Compound(_, target, value) => WrittenTarget(target) + WrittenE(value)
    case FunctionStat(name, fn) => WrittenTarget(name) + WrittenE(fn)
    case ExprStat(e) => WrittenE(e)
    case Block(stats) => WrittenList(stats)
    case If(c, yes, no) => WrittenE(c) + Written(yes) + Written(no)
    case While(c, body) => WrittenE(c) + Written(body)
    case Repeat(body, c) => Written(body) + WrittenE(c)
    case For(_, from, to, step, body) => WrittenE(from) + WrittenE(to) + WrittenEs(step) + Written(body)
    case ForIn(_, values, body) => WrittenEs(values) + Written(body)
    case Return(values) => WrittenEs(values)
    case Break => {}
    case Continue => {}
  }

  function WrittenList(ss: Stats): set<LocalId> {
    if ss.NoStats? then {} else Written(ss.head) + WrittenList(ss.tail)
  }

  // ----- maps that fit a program -----

  /** What the variables without a value of their own are known to be: nil, unless the last value may be several. */
  function Rest(values: Exprs): Constant {
    match values
    case NoExprs => Some(L.CNil)
    case MoreExprs(e, rest) => if rest.NoExprs? then (if IsMulti(e) then None else Some(L.CNil)) else Rest(rest)
  }

  /** A local that is never written is as known as its value; any other one is unknown. */
  ghost predicate DeclarationFits(m: Math, vars: seq<LocalId>, values: Exprs, rest: Constant, ls: Locals, w: set<LocalId>) {
    vars == [] ||
    (&& Get(ls, vars[0]) == (if vars[0] in w then None else if values.MoreExprs? then Fold(m, values.head, ls) else rest)
     && DeclarationFits(m, vars[1..], if values.MoreExprs? then values.tail else values, rest, ls, w))
  }

  ghost predicate Unknown(vars: seq<LocalId>, ls: Locals) {
    forall x <- vars :: Get(ls, x) == None
  }

  /**
   The maps say exactly what folding gives, for every expression in `e`: every constant is recorded at its node, and no
   other node has one. `deep` tells whether function bodies are included.
   */
  ghost predicate FitsE(m: Math, e: Expr, ks: Constants, ls: Locals, w: set<LocalId>, deep: bool) {
    && Get(ks, e.id) == Fold(m, e, ls)
    && match e
       case Group(_, x) => FitsE(m, x, ks, ls, w, deep)
       case Call(_, fn, args) => FitsE(m, fn, ks, ls, w, deep) && FitsEs(m, args, ks, ls, w, deep)
       case Index(_, t, k) => FitsE(m, t, ks, ls, w, deep) && FitsE(m, k, ks, ls, w, deep)
       case Function(_, params, body) => deep ==> Unknown(params, ls) && Fits(m, body, ks, ls, w, deep)
       case Unary(_, _, x) => FitsE(m, x, ks, ls, w, deep)
       case Binary(_, _, l, r) => FitsE(m, l, ks, ls, w, deep) && FitsE(m, r, ks, ls, w, deep)
       case IfElse(_, c, t, f) => FitsE(m, c, ks, ls, w, deep) && FitsE(m, t, ks, ls, w, deep) && FitsE(m, f, ks, ls, w, deep)
       case TypeAssertion(_, x) => FitsE(m, x, ks, ls, w, deep)
       case Table(_, items, _) => FitsEs(m, items, ks, ls, w, deep)
       case InterpString(_, _, parts) => FitsEs(m, parts, ks, ls, w, deep)
       case _ => true
  }

  ghost predicate FitsEs(m: Math, es: Exprs, ks: Constants, ls: Locals, w: set<LocalId>, deep: bool) {
    es.MoreExprs? ==> FitsE(m, es.head, ks, ls, w, deep) && FitsEs(m, es.tail, ks, ls, w, deep)
  }

  ghost predicate Fits(m: Math, s: Stat, ks: Constants, ls: Locals, w: set<LocalId>, deep: bool) {
    match s
    case LocalStat(vars, values) => FitsEs(m, values, ks, ls, w, deep) && DeclarationFits(m, vars, values, Rest(values), ls, w)
    case LocalFunction(x, fn) => Get(ls, x) == None && FitsE(m, fn, ks, ls, w, deep)
    case Assign(targets, values) => FitsEs(m, targets, ks, ls, w, deep) && FitsEs(m, values, ks, ls, w, deep)
    case Compound(_, target, value) => FitsE(m, target, ks, ls, w, deep) && FitsE(m, value, ks, ls, w, deep)
    case FunctionStat(name, fn) => FitsE(m, name, ks, ls, w, deep) && FitsE(m, fn, ks, ls, w, deep)
    case ExprStat(e) => FitsE(m, e, ks, ls, w, deep)
    case Block(stats) => FitsList(m, stats, ks, ls, w, deep)
    case If(c, yes, no) => FitsE(m, c, ks, ls, w, deep) && Fits(m, yes, ks, ls, w, deep) && Fits(m, no, ks, ls, w, deep)
    case While(c, body) => FitsE(m, c, ks, ls, w, deep) && Fits(m, body, ks, ls, w, deep)
    case Repeat(body, c) => Fits(m, body, ks, ls, w, deep) && FitsE(m, c, ks, ls, w, deep)
    case For(x, from, to, step, body) =>
      && Get(ls, x) == None
      && FitsE(m, from, ks, ls, w, deep) && FitsE(m, to, ks, ls, w, deep)
      && FitsEs(m, step, ks, ls, w, deep) && Fits(m, body, ks, ls, w, deep)
    case ForIn(vars, values, body) => Unknown(vars, ls) && FitsEs(m, values, ks, ls, w, deep) && Fits(m, body, ks, ls, w, deep)
    case Return(values) => FitsEs(m, values, ks, ls, w, deep)
    case Break => true
    case Continue => true
  }

  ghost predicate FitsList(m: Math, ss: Stats, ks: Constants, ls: Locals, w: set<LocalId>, deep: bool) {
    ss.MoreStats? ==> Fits(m, ss.head, ks, ls, w, deep) && FitsList(m, ss.tail, ks, ls, w, deep)
  }
}
