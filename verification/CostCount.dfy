/** The price list of the cost model: what a body costs, counted node by node without masks, lanes or saturation. */
module CostCount {
  import opened Results
  import L = LuaSource
  import opened FoldSource
  import FoldUnroll
  import opened PackedLanes
  import opened CostModel
  import opened CostAlgebra
  import opened CostDiscounts
  import opened CostVisitors

  /** A local that is a constant once the flagged parameters are. */
  predicate IsKnown(x: LocalId, vars: Masks, flags: seq<bool>) {
    x in vars && (vars[x].AllConstant? || IsFlagged(vars[x], flags))
  }

  /** Nothing is left to compute. */
  predicate IsConstant(e: Expr, vars: Masks, flags: seq<bool>)
    decreases e
  {
    match e
    case Literal(_, _) => true
    case LocalRef(_, x) => IsKnown(x, vars, flags)
    case Group(_, x) => IsConstant(x, vars, flags)
    case TypeAssertion(_, x) => IsConstant(x, vars, flags)
    case Unary(_, _, x) => IsConstant(x, vars, flags)
    case Binary(_, _, l, r) => IsConstant(l, vars, flags) && IsConstant(r, vars, flags)
    case _ => false
  }

  /** The operations of an expression when the flagged parameters are constants. */
  function Ops(e: Expr, vars: Masks, flags: seq<bool>, builtins: set<NodeId>): nat
    decreases e
  {
    match e
    case Literal(_, _) => 0
    case LocalRef(_, _) => 0
    case Group(_, x) => Ops(x, vars, flags, builtins)
    case TypeAssertion(_, x) => Ops(x, vars, flags, builtins)
    case Global(_, _) => 1
    case Index(_, table, key) => Ops(table, vars, flags, builtins) + Ops(key, vars, flags, builtins) + 1
    case Unary(_, _, x) => Ops(x, vars, flags, builtins) + if IsConstant(e, vars, flags) then 0 else 1
    case Binary(_, _, l, r) =>
      Ops(l, vars, flags, builtins) + Ops(r, vars, flags, builtins) + if IsConstant(e, vars, flags) then 0 else 1
    case IfElse(_, c, yes, no) =>
      Ops(c, vars, flags, builtins) + Ops(yes, vars, flags, builtins) + Ops(no, vars, flags, builtins) + 2
    case Varargs(_) => 3
    case Function(_, _, _) => 10
    case Table(_, items, keyed) => 10 + ItemOps(items, keyed, vars, flags, builtins)
    case InterpString(_, _, parts) => 3 + AllOps(parts, vars, flags, builtins)
    case Call(id, fn, args) =>
      if id in builtins then 2 + ArgumentOps(args, Count(args) > 2, vars, flags, builtins)
      else 3 + Ops(fn, vars, flags, builtins) + ArgumentOps(args, true, vars, flags, builtins)
  }

  function AllOps(es: Exprs, vars: Masks, flags: seq<bool>, builtins: set<NodeId>): nat
    decreases es
  {
    if es.NoExprs? then 0 else Ops(es.head, vars, flags, builtins) + AllOps(es.tail, vars, flags, builtins)
  }

  /** One for each entry, besides its key and its value. */
  function ItemOps(es: Exprs, keyed: seq<bool>, vars: Masks, flags: seq<bool>, builtins: set<NodeId>): nat
    decreases es
  {
    if es.NoExprs? || keyed == [] then 0
    else if keyed[0] && es.tail.MoreExprs? then
      Ops(es.head, vars, flags, builtins) + Ops(es.tail.head, vars, flags, builtins) + 1
      + ItemOps(es.tail.tail, keyed[1..], vars, flags, builtins)
    else Ops(es.head, vars, flags, builtins) + 1 + ItemOps(es.tail, keyed[1..], vars, flags, builtins)
  }

  /** An argument without operations is copied, except for a fast call: one operation. */
  function ArgumentOps(es: Exprs, copied: bool, vars: Masks, flags: seq<bool>, builtins: set<NodeId>): nat
    decreases es
  {
    if es.NoExprs? then 0
    else
      (if copied && Ops(es.head, vars, [], builtins) == 0 then 1 else Ops(es.head, vars, flags, builtins))
      + ArgumentOps(es.tail, copied, vars, flags, builtins)
  }

  /** The operations of a statement that comes after what has been tallied. */
  function StatOps(s: Stat, t: Tally, flags: seq<bool>, cx: Setting): nat
    decreases s, 0
  {
    match s
    case LocalStat(xs, values) => DeclaredOps(xs, values, t, flags, cx)
    case LocalFunction(_, fn) => Ops(fn, t.vars, flags, cx.builtins)
    case Assign(targets, values) => StoredOps(targets, values, Forgotten(targets, t.vars), flags, cx.builtins)
    case Compound(_, target, value) =>
      var vars := Forgotten(MoreExprs(target, NoExprs), t.vars);
      Ops(target, vars, flags, cx.builtins) + Ops(value, vars, flags, cx.builtins) + if target.LocalRef? then 1 else 2
    case FunctionStat(name, fn) => Ops(name, t.vars, flags, cx.builtins) + Ops(fn, t.vars, flags, cx.builtins)
    case ExprStat(e) => Ops(e, t.vars, flags, cx.builtins)
    case Block(stats) => StatsOps(stats, t, flags, cx)
    case If(c, yes, no) =>
      var t1 := Adding(Adding(t, Flat(if HasElse(no) && !no.If? then 2 else 1)), ModelOf(c, t.vars, cx.builtins));
      Ops(c, t.vars, flags, cx.builtins) + StatOps(yes, t1, flags, cx)
      + if !HasElse(no) then 1
        else StatOps(no, StatOf(yes, t1, cx), flags, cx) + if no.If? then 1 else 2
    case While(c, body) => 3 * (BodyOps(body, t.vars, flags, cx) + Ops(c, t.vars, flags, cx.builtins))
    case Repeat(body, c) => 3 * (BodyOps(body, t.vars, flags, cx) + Ops(c, t.vars, flags, cx.builtins))
    case For(_, from, to, step, body) =>
      Ops(from, t.vars, flags, cx.builtins) + Ops(to, t.vars, flags, cx.builtins)
      + (if step.NoExprs? then 0 else Ops(step.head, t.vars, flags, cx.builtins))
      + Factor(from, to, step, cx.neg) * (BodyOps(body, t.vars, flags, cx) + 1)
    case ForIn(_, values, body) =>
      AllOps(values, t.vars, flags, cx.builtins) + 3 * (BodyOps(body, t.vars, flags, cx) + 1)
    case Return(values) => AllOps(values, t.vars, flags, cx.builtins)
    case Break => 1
    case Continue => 1
  }

  function StatsOps(ss: Stats, t: Tally, flags: seq<bool>, cx: Setting): nat
    decreases ss
  {
    if ss.NoStats? then 0 else StatOps(ss.head, t, flags, cx) + StatsOps(ss.tail, StatOf(ss.head, t, cx), flags, cx)
  }

  function BodyOps(body: Stat, vars: Masks, flags: seq<bool>, cx: Setting): nat
    decreases body, 1
  {
    StatOps(body, Tally(vars, Flat(0)), flags, cx)
  }

  function DeclaredOps(xs: seq<LocalId>, es: Exprs, t: Tally, flags: seq<bool>, cx: Setting): nat
    decreases es
  {
    if es.NoExprs? then 0
    else
      var t1 := Declared(xs[..if xs == [] then 0 else 1], MoreExprs(es.head, NoExprs), t, cx);
      Ops(es.head, t.vars, flags, cx.builtins) + DeclaredOps(if xs == [] then [] else xs[1..], es.tail, t1, flags, cx)
  }

  /** A target and a value without operations still take one to store. */
  function StoredOps(targets: Exprs, values: Exprs, vars: Masks, flags: seq<bool>, builtins: set<NodeId>): nat
    decreases Count(targets) + Count(values)
  {
    if targets.NoExprs? && values.NoExprs? then 0
    else
      (if HeadOps(targets, vars, [], builtins) + HeadOps(values, vars, [], builtins) == 0 then 1
       else HeadOps(targets, vars, flags, builtins) + HeadOps(values, vars, flags, builtins))
      + StoredOps(Tail(targets), Tail(values), vars, flags, builtins)
  }

  function HeadOps(es: Exprs, vars: Masks, flags: seq<bool>, builtins: set<NodeId>): nat {
    if es.NoExprs? then 0 else Ops(es.head, vars, flags, builtins)
  }

  // ----- the model agrees -----

  lemma {:induction false} NoFlags(b: Build)
    ensures Substituted(b, []) == b
    decreases b
  {
    match b
    case Base(_, _) =>
    case Sum(x, y) =>
      NoFlags(x);
      NoFlags(y);
    case Product(x, _) => NoFlags(x);
    case Folded(x, y) =>
      NoFlags(x);
      NoFlags(y);
  }

  lemma {:induction false} AllZero(v: Lanes)
    requires Total(v) == 0
    ensures v == Same(0, |v|)
    decreases |v|
  {
    if v != [] {
      AllZero(v[1..]);
      assert v == [v[0]] + v[1..];
    }
  }

  /** A cost is zero in all lanes exactly when nothing is counted. */
  lemma FreeIsZero(b: Build)
    ensures IsFree(b) <==> Remaining(b, []) == 0
  {
    NoFlags(b);
    CostIsRemaining(b, []);
    EveryCostIsPlain(b);
    var v := Lanes8(b);
    if v[0] == 0 {
      assert Total(v) == 0;
      AllZero(v);
    }
  }

  lemma SumCounts(x: Build, y: Build, flags: seq<bool>)
    ensures Remaining(Sum(x, y), flags) == Remaining(x, flags) + Remaining(y, flags)
  {
  }

  lemma {:induction false} OpsAre(e: Expr, vars: Masks, flags: seq<bool>, builtins: set<NodeId>)
    ensures Remaining(ModelOf(e, vars, builtins), flags) == Ops(e, vars, flags, builtins)
    ensures IsLiteral(ModelOf(e, vars, builtins), flags) <==> IsConstant(e, vars, flags)
    decreases e, 1
  {
    match e
    case Group(_, x) => OpsAre(x, vars, flags, builtins);
    case TypeAssertion(_, x) => OpsAre(x, vars, flags, builtins);
    case Call(_, _, _) => CallIs(e, vars, flags, builtins);
    case Index(_, table, key) =>
      OpsAre(table, vars, flags, builtins);
      OpsAre(key, vars, flags, builtins);
    case Unary(_, _, _) => UnaryIs(e, vars, flags, builtins);
    case Binary(_, _, _, _) => BinaryIs(e, vars, flags, builtins);
    case IfElse(_, _, _, _) => IfElseIs(e, vars, flags, builtins);
    case Table(_, items, keyed) => ItemsAre(items, keyed, Flat(10), vars, flags, builtins);
    case InterpString(_, _, parts) => PartsAre(parts, Flat(3), vars, flags, builtins);
    case _ =>
  }

  lemma {:induction false} UnaryIs(e: Expr, vars: Masks, flags: seq<bool>, builtins: set<NodeId>)
    requires e.Unary?
    ensures Remaining(ModelOf(e, vars, builtins), flags) == Ops(e, vars, flags, builtins)
    ensures IsLiteral(ModelOf(e, vars, builtins), flags) <==> IsConstant(e, vars, flags)
    decreases e, 0
  {
    OpsAre(e.operand, vars, flags, builtins);
    assert Remaining(Base(0, AllConstant), flags) == 0 && IsLiteral(Base(0, AllConstant), flags);
  }

  lemma {:induction false} BinaryIs(e: Expr, vars: Masks, flags: seq<bool>, builtins: set<NodeId>)
    requires e.Binary?
    ensures Remaining(ModelOf(e, vars, builtins), flags) == Ops(e, vars, flags, builtins)
    ensures IsLiteral(ModelOf(e, vars, builtins), flags) <==> IsConstant(e, vars, flags)
    decreases e, 0
  {
    OpsAre(e.left, vars, flags, builtins);
    OpsAre(e.right, vars, flags, builtins);
  }

  lemma {:induction false} CallIs(e: Expr, vars: Masks, flags: seq<bool>, builtins: set<NodeId>)
    requires e.Call?
    ensures Remaining(ModelOf(e, vars, builtins), flags) == Ops(e, vars, flags, builtins)
    ensures !IsLiteral(ModelOf(e, vars, builtins), flags)
    decreases e, 0
  {
    OpsAre(e.fn, vars, flags, builtins);
    var builtin := e.id in builtins;
    var first := if builtin then Flat(2) else Sum(Flat(3), ModelOf(e.fn, vars, builtins));
    ArgumentsAre(e.args, !(builtin && Count(e.args) <= 2), first, vars, flags, builtins);
  }

  lemma {:induction false} IfElseIs(e: Expr, vars: Masks, flags: seq<bool>, builtins: set<NodeId>)
    requires e.IfElse?
    ensures Remaining(ModelOf(e, vars, builtins), flags) == Ops(e, vars, flags, builtins)
    ensures !IsLiteral(ModelOf(e, vars, builtins), flags)
    decreases e, 0
  {
    OpsAre(e.cond, vars, flags, builtins);
    OpsAre(e.yes, vars, flags, builtins);
    OpsAre(e.no, vars, flags, builtins);
    var b := Sum(ModelOf(e.cond, vars, builtins), ModelOf(e.yes, vars, builtins));
    SumCounts(b, ModelOf(e.no, vars, builtins), flags);
    SumCounts(Sum(b, ModelOf(e.no, vars, builtins)), Flat(2), flags);
  }

  lemma {:induction false} PartsAre(es: Exprs, sofar: Build, vars: Masks, flags: seq<bool>, builtins: set<NodeId>)
    requires !sofar.Folded? && (sofar.Base? ==> sofar.mask.NoVariable?)
    ensures
      var b := PartsOf(es, sofar, vars, builtins);
      Remaining(b, flags) == Remaining(sofar, flags) + AllOps(es, vars, flags, builtins) && !IsLiteral(b, flags)
    decreases es
  {
    if es.MoreExprs? {
      OpsAre(es.head, vars, flags, builtins);
      PartsAre(es.tail, Sum(sofar, ModelOf(es.head, vars, builtins)), vars, flags, builtins);
    }
  }

  lemma {:induction false} ItemsAre(es: Exprs, keyed: seq<bool>, sofar: Build, vars: Masks, flags: seq<bool>, builtins: set<NodeId>)
    requires !sofar.Folded? && (sofar.Base? ==> sofar.mask.NoVariable?)
    ensures
      var b := ItemsOf(es, keyed, sofar, vars, builtins);
      Remaining(b, flags) == Remaining(sofar, flags) + ItemOps(es, keyed, vars, flags, builtins) && !IsLiteral(b, flags)
    decreases es
  {
    if es.MoreExprs? && keyed != [] {
      OpsAre(es.head, vars, flags, builtins);
      var first := Sum(sofar, ModelOf(es.head, vars, builtins));
      assert Remaining(first, flags) == Remaining(sofar, flags) + Ops(es.head, vars, flags, builtins);
      assert Remaining(Flat(1), flags) == 1;
      if keyed[0] && es.tail.MoreExprs? {
        OpsAre(es.tail.head, vars, flags, builtins);
        var both := Sum(first, ModelOf(es.tail.head, vars, builtins));
        assert Remaining(both, flags) == Remaining(first, flags) + Ops(es.tail.head, vars, flags, builtins);
        ItemsAre(es.tail.tail, keyed[1..], Sum(both, Flat(1)), vars, flags, builtins);
      } else {
        ItemsAre(es.tail, keyed[1..], Sum(first, Flat(1)), vars, flags, builtins);
      }
    }
  }

  lemma {:induction false} ArgumentsAre(
      es: Exprs, copied: bool, sofar: Build, vars: Masks, flags: seq<bool>, builtins: set<NodeId>)
    requires !sofar.Folded? && (sofar.Base? ==> sofar.mask.NoVariable?)
    ensures
      var b := ArgumentsOf(es, copied, sofar, vars, builtins);
      && Remaining(b, flags) == Remaining(sofar, flags) + ArgumentOps(es, copied, vars, flags, builtins)
      && !IsLiteral(b, flags)
    decreases es
  {
    if es.MoreExprs? {
      OpsAre(es.head, vars, flags, builtins);
      OpsAre(es.head, vars, [], builtins);
      var b := ModelOf(es.head, vars, builtins);
      FreeIsZero(b);
      ArgumentsAre(es.tail, copied, Sum(sofar, if IsFree(b) && copied then Flat(1) else b), vars, flags, builtins);
    }
  }

  lemma AddingExpr(t: Tally, e: Expr, vars: Masks, flags: seq<bool>, cx: Setting)
    ensures
      var t1 := Adding(t, ModelOf(e, vars, cx.builtins));
      Remaining(t1.result, flags) == Remaining(t.result, flags) + Ops(e, vars, flags, cx.builtins)
  {
    OpsAre(e, vars, flags, cx.builtins);
  }

  lemma {:induction false} AddingAllAre(es: Exprs, t: Tally, flags: seq<bool>, cx: Setting)
    ensures AddingAll(es, t, cx).vars == t.vars
    ensures Remaining(AddingAll(es, t, cx).result, flags) == Remaining(t.result, flags) + AllOps(es, t.vars, flags, cx.builtins)
    decreases es
  {
    if es.MoreExprs? {
      AddingExpr(t, es.head, t.vars, flags, cx);
      AddingAllAre(es.tail, Adding(t, ModelOf(es.head, t.vars, cx.builtins)), flags, cx);
    }
  }

  lemma {:induction false} DeclaredAre(xs: seq<LocalId>, es: Exprs, t: Tally, flags: seq<bool>, cx: Setting)
    ensures Remaining(Declared(xs, es, t, cx).result, flags) == Remaining(t.result, flags) + DeclaredOps(xs, es, t, flags, cx)
    decreases es
  {
    if es.MoreExprs? {
      var first := xs[..if xs == [] then 0 else 1];
      var t1 := Declared(first, MoreExprs(es.head, NoExprs), t, cx);
      var rest := if xs == [] then [] else xs[1..];
      assert (first == [] <==> xs == []) && (xs != [] ==> first[0] == xs[0]);
      OpsAre(es.head, t.vars, flags, cx.builtins);
      OneDeclared(first, es.head, t, flags, cx);
      assert Declared(xs, es, t, cx) == Declared(rest, es.tail, t1, cx);
      DeclaredAre(rest, es.tail, t1, flags, cx);
    }
  }

  lemma OneDeclared(xs: seq<LocalId>, e: Expr, t: Tally, flags: seq<bool>, cx: Setting)
    ensures Declared(xs, MoreExprs(e, NoExprs), t, cx).result == Sum(t.result, ModelOf(e, t.vars, cx.builtins))
  {
  }

  lemma PairIs(targets: Exprs, values: Exprs, vars: Masks, flags: seq<bool>, builtins: set<NodeId>)
    ensures
      Remaining(PairCost(targets, values, vars, builtins), flags)
      == HeadOps(targets, vars, flags, builtins) + HeadOps(values, vars, flags, builtins)
  {
    var b := Flat(0);
    if targets.MoreExprs? {
      OpsAre(targets.head, vars, flags, builtins);
      SumCounts(b, ModelOf(targets.head, vars, builtins), flags);
      b := Sum(b, ModelOf(targets.head, vars, builtins));
    }
    if values.MoreExprs? {
      OpsAre(values.head, vars, flags, builtins);
      SumCounts(b, ModelOf(values.head, vars, builtins), flags);
    }
  }

  lemma {:induction false} StoredAre(targets: Exprs, values: Exprs, t: Tally, flags: seq<bool>, cx: Setting)
    ensures Stored(targets, values, t, cx).vars == t.vars
    ensures
      Remaining(Stored(targets, values, t, cx).result, flags)
      == Remaining(t.result, flags) + StoredOps(targets, values, t.vars, flags, cx.builtins)
    decreases Count(targets) + Count(values)
  {
    if !(targets.NoExprs? && values.NoExprs?) {
      var b := PairCost(targets, values, t.vars, cx.builtins);
      PairIs(targets, values, t.vars, flags, cx.builtins);
      PairIs(targets, values, t.vars, [], cx.builtins);
      FreeIsZero(b);
      StoredAre(Tail(targets), Tail(values), Adding(t, if IsFree(b) then Flat(1) else b), flags, cx);
    }
  }

  lemma RepeatedIs(before: Tally, body: Tally, each: Build, factor: nat, flags: seq<bool>)
    ensures
      Remaining(Repeated(before, body, each, factor).result, flags)
      == Remaining(before.result, flags) + factor * (Remaining(body.result, flags) + Remaining(each, flags))
  {
    var round := Sum(body.result, each);
    assert Remaining(round, flags) == Remaining(body.result, flags) + Remaining(each, flags);
    assert Remaining(Product(round, factor), flags) == factor * Remaining(round, flags);
  }

  /** The tally of a statement grows by its operations, with any parameters made constant. */
  lemma {:induction false} StatCounts(s: Stat, t: Tally, flags: seq<bool>, cx: Setting)
    ensures Remaining(StatOf(s, t, cx).result, flags) == Remaining(t.result, flags) + StatOps(s, t, flags, cx)
    decreases s, 1
  {
    match s
    case LocalStat(xs, values) => DeclaredAre(xs, values, t, flags, cx);
    case LocalFunction(_, fn) => AddingExpr(t, fn, t.vars, flags, cx);
    case Assign(targets, values) => StoredAre(targets, values, t.(vars := Forgotten(targets, t.vars)), flags, cx);
    case Compound(_, target, value) => CompoundCounts(s, t, flags, cx);
    case FunctionStat(name, fn) =>
      AddingExpr(t, name, t.vars, flags, cx);
      AddingExpr(Adding(t, ModelOf(name, t.vars, cx.builtins)), fn, t.vars, flags, cx);
    case ExprStat(e) => AddingExpr(t, e, t.vars, flags, cx);
    case Block(stats) => StatsCount(stats, t, flags, cx);
    case If(c, yes, no) => IfCounts(s, t, flags, cx);
    case While(c, body) => BodyCounts(body, c, t, flags, cx);
    case Repeat(body, c) => BodyCounts(body, c, t, flags, cx);
    case For(_, _, _, _, _) => ForCounts(s, t, flags, cx);
    case ForIn(_, values, body) =>
      AddingAllAre(values, t, flags, cx);
      StatCounts(body, Tally(t.vars, Flat(0)), flags, cx);
      RepeatedIs(AddingAll(values, t, cx), StatOf(body, Tally(t.vars, Flat(0)), cx), Flat(1), 3, flags);
    case Return(values) => AddingAllAre(values, t, flags, cx);
    case _ =>
  }

  lemma CompoundCounts(s: Stat, t: Tally, flags: seq<bool>, cx: Setting)
    requires s.Compound?
    ensures Remaining(StatOf(s, t, cx).result, flags) == Remaining(t.result, flags) + StatOps(s, t, flags, cx)
  {
    var vars := Forgotten(MoreExprs(s.target, NoExprs), t.vars);
    var t1 := Adding(t.(vars := vars), Flat(if s.target.LocalRef? then 1 else 2));
    AddingExpr(t1, s.target, vars, flags, cx);
    AddingExpr(Adding(t1, ModelOf(s.target, vars, cx.builtins)), s.value, vars, flags, cx);
  }

  lemma {:induction false} BodyCounts(body: Stat, c: Expr, t: Tally, flags: seq<bool>, cx: Setting)
    ensures
      var each := ModelOf(c, t.vars, cx.builtins);
      Remaining(Repeated(t, StatOf(body, Tally(t.vars, Flat(0)), cx), each, 3).result, flags)
      == Remaining(t.result, flags) + 3 * (BodyOps(body, t.vars, flags, cx) + Ops(c, t.vars, flags, cx.builtins))
    decreases body, 2
  {
    StatCounts(body, Tally(t.vars, Flat(0)), flags, cx);
    OpsAre(c, t.vars, flags, cx.builtins);
    RepeatedIs(t, StatOf(body, Tally(t.vars, Flat(0)), cx), ModelOf(c, t.vars, cx.builtins), 3, flags);
  }

  lemma {:induction false} IfCounts(s: Stat, t: Tally, flags: seq<bool>, cx: Setting)
    requires s.If?
    ensures Remaining(StatOf(s, t, cx).result, flags) == Remaining(t.result, flags) + StatOps(s, t, flags, cx)
    decreases s, 0
  {
    var jumps := if HasElse(s.no) && !s.no.If? then 2 else 1;
    var t0 := Adding(t, Flat(jumps));
    var t1 := Adding(t0, ModelOf(s.cond, t.vars, cx.builtins));
    AddingExpr(t0, s.cond, t.vars, flags, cx);
    StatCounts(s.yes, t1, flags, cx);
    if HasElse(s.no) {
      StatCounts(s.no, StatOf(s.yes, t1, cx), flags, cx);
    }
  }

  lemma {:induction false} ForCounts(s: Stat, t: Tally, flags: seq<bool>, cx: Setting)
    requires s.For?
    ensures Remaining(StatOf(s, t, cx).result, flags) == Remaining(t.result, flags) + StatOps(s, t, flags, cx)
    decreases s, 0
  {
    var t0 := Adding(t, ModelOf(s.from, t.vars, cx.builtins));
    var t1 := Adding(t0, ModelOf(s.to, t.vars, cx.builtins));
    var t2 := if s.step.NoExprs? then t1 else Adding(t1, ModelOf(s.step.head, t.vars, cx.builtins));
    AddingExpr(t, s.from, t.vars, flags, cx);
    AddingExpr(t0, s.to, t.vars, flags, cx);
    if s.step.MoreExprs? {
      AddingExpr(t1, s.step.head, t.vars, flags, cx);
    }
    var factor := Factor(s.from, s.to, s.step, cx.neg);
    StatCounts(s.body, Tally(t.vars, Flat(0)), flags, cx);
    RepeatedIs(t2, StatOf(s.body, Tally(t.vars, Flat(0)), cx), Flat(1), factor, flags);
  }

  lemma {:induction false} StatsCount(ss: Stats, t: Tally, flags: seq<bool>, cx: Setting)
    ensures Remaining(StatsOf(ss, t, cx).result, flags) == Remaining(t.result, flags) + StatsOps(ss, t, flags, cx)
    decreases ss
  {
    if ss.MoreStats? {
      StatCounts(ss.head, t, flags, cx);
      StatsCount(ss.tail, StatOf(ss.head, t, cx), flags, cx);
    }
  }

  predicate IsNumeral(e: Expr, n: L.Number, neg: L.Number -> L.Number) {
    || (e.Literal? && e.c == L.CNumber(n))
    || (e.Unary? && e.uop == L.Minus && e.operand.Literal? && e.operand.c.CNumber? && neg(e.operand.c.n) == n)
  }

  /** A loop counts three times unless numerals tell its number of rounds. */
  lemma RoundsAre(from: Expr, to: Expr, step: Exprs, neg: L.Number -> L.Number)
    ensures
      || Factor(from, to, step, neg) == 3
      || exists f, t, s ::
           && IsNumeral(from, f, neg) && IsNumeral(to, t, neg)
           && (if step.NoExprs? then s == L.Integral(1) else IsNumeral(step.head, s, neg))
           && Factor(from, to, step, neg) == FoldUnroll.GetTripCount(f, t, s)
    ensures
      forall f, t, s ::
        && IsNumeral(from, f, neg) && IsNumeral(to, t, neg)
        && (if step.NoExprs? then s == L.Integral(1) else IsNumeral(step.head, s, neg))
        && FoldUnroll.GetTripCount(f, t, s) >= 0
        ==> Factor(from, to, step, neg) == FoldUnroll.GetTripCount(f, t, s)
  {
    var f, t := GetNumber(from, neg), GetNumber(to, neg);
    var s := if step.NoExprs? then Some(L.Integral(1)) else GetNumber(step.head, neg);
    if f.Some? && t.Some? && s.Some? {
      assert IsNumeral(from, f.value, neg) && IsNumeral(to, t.value, neg);
      assert step.MoreExprs? ==> IsNumeral(step.head, s.value, neg);
    }
  }

  /** A parameter has the lane of its place among the first seven. */
  lemma {:induction false} ParametersAre(xs: seq<LocalId>, i: nat, vars: Masks, x: LocalId)
    requires forall j, k :: 0 <= j < k < |xs| ==> xs[j] != xs[k]
    ensures
      var after := Parameters(xs, i, vars);
      if exists j :: i <= j < |xs| && j < 7 && xs[j] == x
      then x in after && after[x].Variable? && i <= after[x].i < |xs| && xs[after[x].i] == x
      else (x in after <==> x in vars) && (x in vars ==> after[x] == vars[x])
    decreases |xs| - i
  {
    if i < |xs| && i < 7 {
      ParametersAre(xs, i + 1, vars[xs[i] := Variable(i)], x);
    }
  }

  lemma ParametersKnown(xs: seq<LocalId>, flags: seq<bool>, x: LocalId)
    requires forall j, k :: 0 <= j < k < |xs| ==> xs[j] != xs[k]
    ensures
      IsKnown(x, Parameters(xs, 0, map[]), flags) <==> exists j :: 0 <= j < |xs| && j < 7 && xs[j] == x && j < |flags| && flags[j]
  {
    ParametersAre(xs, 0, map[], x);
  }

  /**
   The cost of a body with any of its parameters replaced by constants is the number of its operations that are left,
   cut off at 127.
   */
  lemma BodyIsCounted(root: Stat, xs: seq<LocalId>, flags: seq<bool>, cx: Setting)
    ensures
      CostOf(Substituted(BodyCost(root, xs, cx), flags)) == Saturate(BodyOps(root, Parameters(xs, 0, map[]), flags, cx))
  {
    StatCounts(root, Tally(Parameters(xs, 0, map[]), Flat(0)), flags, cx);
    CostIsRemaining(BodyCost(root, xs, cx), flags);
  }

  /** Some target is the local. */
  predicate IsTarget(targets: Exprs, x: LocalId)
    decreases targets
  {
    targets.MoreExprs? && (targets.head == LocalRef(targets.head.id, x) || IsTarget(targets.tail, x))
  }

  /** A local that is assigned is known no more, the others are as before. */
  lemma {:induction false} AssignedIsUnknown(targets: Exprs, vars: Masks, x: LocalId, flags: seq<bool>)
    ensures IsKnown(x, Forgotten(targets, vars), flags) <==> IsKnown(x, vars, flags) && !IsTarget(targets, x)
    decreases targets
  {
    if targets.MoreExprs? {
      var e := targets.head;
      AssignedIsUnknown(targets.tail, if e.LocalRef? && e.x in vars then vars[e.x := NoVariable] else vars, x, flags);
    }
  }

  /** With one flag, a mask tells whether anything is left to compute. */
  lemma {:induction false} MaskTells(b: Build, flags: seq<bool>)
    requires AtMostOne(flags)
    ensures (MaskOf(b).AllConstant? || IsFlagged(MaskOf(b), flags)) <==> IsLiteral(b, flags)
    decreases b
  {
    match b
    case Folded(x, y) =>
      MaskTells(x, flags);
      MaskTells(y, flags);
    case _ =>
  }

  /** A new local is known exactly when its value leaves nothing to compute. */
  lemma DeclaredIsKnown(x: LocalId, e: Expr, t: Tally, flags: seq<bool>, cx: Setting)
    requires AtMostOne(flags) && x !in t.vars
    ensures IsKnown(x, StatOf(LocalStat([x], MoreExprs(e, NoExprs)), t, cx).vars, flags) <==> IsConstant(e, t.vars, flags)
  {
    OpsAre(e, t.vars, flags, cx.builtins);
    MaskTells(ModelOf(e, t.vars, cx.builtins), flags);
    var b := ModelOf(e, t.vars, cx.builtins);
    var m := MaskOf(b);
    assert Declared([x], MoreExprs(e, NoExprs), t, cx).vars == if m.NoVariable? then t.vars else t.vars[x := m];
  }
}
