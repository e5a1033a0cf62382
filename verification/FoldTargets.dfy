/** Which locals are written, and what is known of those that are not: stated by position and by statement. */
module FoldTargets {
  import opened Results
  import L = LuaSource
  import opened FoldSource
  import opened FoldSpec

  // ----- all statements in a program, those of its functions included -----

  function PartsE(e: Expr): set<Stat>
    decreases e
  {
    match e
    case Group(_, x) => PartsE(x)
    case Call(_, fn, args) => PartsE(fn) + PartsEs(args)
    case Index(_, t, k) => PartsE(t) + PartsE(k)
    case Function(_, _, body) => Parts(body)
    case Unary(_, _, x) => PartsE(x)
    case Binary(_, _, l, r) => PartsE(l) + PartsE(r)
    case IfElse(_, c, yes, no) => PartsE(c) + PartsE(yes) + PartsE(no)
    case TypeAssertion(_, x) => PartsE(x)
    case Table(_, items, _) => PartsEs(items)
    case InterpString(_, _, parts) => PartsEs(parts)
    case _ => {}
  }

  function PartsEs(es: Exprs): set<Stat>
    decreases es
  {
    if es.NoExprs? then {} else PartsE(es.head) + PartsEs(es.tail)
  }

  function Parts(s: Stat): set<Stat>
    decreases s, 1
  {
    {s} + Inner(s)
  }

  function Inner(s: Stat): set<Stat>
    decreases s, 0
  {
    match s
    case LocalStat(_, values) => PartsEs(values)
    case LocalFunction(_, fn) => PartsE(fn)
    case Assign(targets, values) => PartsEs(targets) + PartsEs(values)
    case Compound(_, target, value) => PartsE(target) + PartsE(value)
    case FunctionStat(name, fn) => PartsE(name) + PartsE(fn)
    case ExprStat(e) => PartsE(e)
    case Block(stats) => PartsList(stats)
    case If(c, yes, no) => PartsE(c) + Parts(yes) + Parts(no)
    case While(c, body) => PartsE(c) + Parts(body)
    case Repeat(body, c) => Parts(body) + PartsE(c)
    case For(_, from, to, step, body) => PartsE(from) + PartsE(to) + PartsEs(step) + Parts(body)
    case ForIn(_, values, body) => PartsEs(values) + Parts(body)
    case Return(values) => PartsEs(values)
    case Break => {}
    case Continue => {}
  }

  function PartsList(ss: Stats): set<Stat>
    decreases ss
  {
    if ss.NoStats? then {} else Parts(ss.head) + PartsList(ss.tail)
  }

  predicate Refers(e: Expr, x: LocalId) {
    e.LocalRef? && e.x == x
  }

  predicate SomeRefers(es: Exprs, x: LocalId)
    decreases es
  {
    es.MoreExprs? && (Refers(es.head, x) || SomeRefers(es.tail, x))
  }

  /** The statement itself assigns the local. */
  predicate Assigns(s: Stat, x: LocalId) {
    || (s.Assign? && SomeRefers(s.targets, x))
    || (s.Compound? && Refers(s.target, x))
    || (s.FunctionStat? && Refers(s.name, x))
  }

  predicate SomeAssigns(parts: set<Stat>, x: LocalId) {
    exists p :: p in parts && Assigns(p, x)
  }

  // ----- the written locals are the assigned ones -----

  lemma {:induction false} WrittenEIs(e: Expr, x: LocalId)
    ensures x in WrittenE(e) <==> SomeAssigns(PartsE(e), x)
    decreases e, 0
  {
    match e
    case Group(_, y) => WrittenEIs(y, x);
    case Call(_, fn, args) =>
      WrittenEIs(fn, x);
      WrittenEsIs(args, x);
    case Index(_, t, k) =>
      WrittenEIs(t, x);
      WrittenEIs(k, x);
    case Function(_, _, body) => WrittenIs(body, x);
    case Unary(_, _, y) => WrittenEIs(y, x);
    case Binary(_, _, l, r) =>
      WrittenEIs(l, x);
      WrittenEIs(r, x);
    case IfElse(_, c, yes, no) =>
      WrittenEIs(c, x);
      WrittenEIs(yes, x);
      WrittenEIs(no, x);
    case TypeAssertion(_, y) => WrittenEIs(y, x);
    case Table(_, items, _) => WrittenEsIs(items, x);
    case InterpString(_, _, parts) => WrittenEsIs(parts, x);
    case _ =>
  }

  lemma {:induction false} WrittenEsIs(es: Exprs, x: LocalId)
    ensures x in WrittenEs(es) <==> SomeAssigns(PartsEs(es), x)
    decreases es
  {
    if es.MoreExprs? {
      WrittenEIs(es.head, x);
      WrittenEsIs(es.tail, x);
    }
  }

  lemma {:induction false} WrittenTargetIs(e: Expr, x: LocalId)
    ensures x in WrittenTarget(e) <==> Refers(e, x) || SomeAssigns(PartsE(e), x)
    decreases e, 1
  {
    WrittenEIs(e, x);
  }

  lemma {:induction false} WrittenTargetsIs(es: Exprs, x: LocalId)
    ensures x in WrittenTargets(es) <==> SomeRefers(es, x) || SomeAssigns(PartsEs(es), x)
    decreases es
  {
    if es.MoreExprs? {
      WrittenTargetIs(es.head, x);
      WrittenTargetsIs(es.tail, x);
    }
  }

  /** A local counts as written exactly when some statement, perhaps in a function, assigns it. */
  lemma {:induction false} WrittenIs(s: Stat, x: LocalId)
    ensures x in Written(s) <==> SomeAssigns(Parts(s), x)
    decreases s
  {
    match s
    case LocalStat(_, values) => WrittenEsIs(values, x);
    case LocalFunction(_, fn) => WrittenEIs(fn, x);
    case Assign(targets, values) =>
      WrittenTargetsIs(targets, x);
      WrittenEsIs(values, x);
    case Compound(_, target, value) =>
      WrittenTargetIs(target, x);
      WrittenEIs(value, x);
    case FunctionStat(name, fn) =>
      WrittenTargetIs(name, x);
      WrittenEIs(fn, x);
    case ExprStat(e) => WrittenEIs(e, x);
    case Block(stats) => WrittenListIs(stats, x);
    case If(c, yes, no) =>
      WrittenEIs(c, x);
      WrittenIs(yes, x);
      WrittenIs(no, x);
    case While(c, body) =>
      WrittenEIs(c, x);
      WrittenIs(body, x);
    case Repeat(body, c) =>
      WrittenEIs(c, x);
      WrittenIs(body, x);
    case For(_, from, to, step, body) =>
      WrittenEIs(from, x);
      WrittenEIs(to, x);
      WrittenEsIs(step, x);
      WrittenIs(body, x);
    case ForIn(_, values, body) =>
      WrittenEsIs(values, x);
      WrittenIs(body, x);
    case Return(values) => WrittenEsIs(values, x);
    case _ =>
  }

  lemma {:induction false} WrittenListIs(ss: Stats, x: LocalId)
    ensures x in WrittenList(ss) <==> SomeAssigns(PartsList(ss), x)
    decreases ss
  {
    if ss.MoreStats? {
      WrittenIs(ss.head, x);
      WrittenListIs(ss.tail, x);
    }
  }

  // ----- what a declaration makes known -----

  function Nth(es: Exprs, i: nat): Expr
    requires i < Count(es)
  {
    if i == 0 then es.head else Nth(es.tail, i - 1)
  }

  /** Each local that is never written has the constant of its own value; one without a value is nil or unknown. */
  lemma {:induction false} DeclaredConstant(m: Math, vars: seq<LocalId>, values: Exprs, rest: Constant, ls: Locals, w: set<LocalId>, i: nat)
    requires DeclarationFits(m, vars, values, rest, ls, w) && i < |vars|
    ensures
      Get(ls, vars[i]) ==
      if vars[i] in w then None else if i < Count(values) then Fold(m, Nth(values, i), ls) else rest
    decreases i
  {
    if i > 0 {
      DeclaredConstant(m, vars[1..], if values.MoreExprs? then values.tail else values, rest, ls, w, i - 1);
    }
  }

  /** Surplus locals are nil unless the last value may have several results. */
  lemma {:induction false} RestIs(values: Exprs)
    ensures Rest(values) == if values.MoreExprs? && IsMulti(Nth(values, Count(values) - 1)) then None else Some(L.CNil)
    decreases values
  {
    if values.MoreExprs? {
      RestIs(values.tail);
    }
  }
}
