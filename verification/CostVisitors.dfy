/**
 What a function body or a loop body costs: the visitor adds up packed costs, and what it ends with is the plain
 cost of the body. An empty `else` branch is a block that holds an empty block; an absent one is an empty block.
 */
module CostVisitors {
  import opened PowersOfTwo
  import opened Results
  import L = LuaSource
  import opened FoldSource
  import FoldUnroll
  import opened PackedLanes
  import opened CostModel
  import opened CostAlgebra
  import opened CostDiscounts

  type Masks = map<LocalId, Mask>

  // ----- the cost of an expression -----

  function Flat(cost: nat): Build {
    Base(cost, NoVariable)
  }

  predicate IsFree(b: Build) {
    PlainOfBuild(b).lanes == Same(0, 8)
  }

  function ModelOf(e: Expr, vars: Masks, builtins: set<NodeId>): Build
    decreases e
  {
    match e
    case Group(_, x) => ModelOf(x, vars, builtins)
    case Literal(_, _) => Base(0, AllConstant)
    case LocalRef(_, x) => Base(0, if x in vars then vars[x] else NoVariable)
    case Global(_, _) => Flat(1)
    case Call(id, fn, args) =>
      var builtin := id in builtins;
      ArgumentsOf(args, !(builtin && Count(args) <= 2),
                  if builtin then Flat(2) else Sum(Flat(3), ModelOf(fn, vars, builtins)), vars, builtins)
    case Index(_, table, key) => Sum(Sum(ModelOf(table, vars, builtins), ModelOf(key, vars, builtins)), Flat(1))
    case Function(_, _, _) => Flat(10)
    case Unary(_, _, x) => Folded(ModelOf(x, vars, builtins), Base(0, AllConstant))
    case Binary(_, _, l, r) => Folded(ModelOf(l, vars, builtins), ModelOf(r, vars, builtins))
    case IfElse(_, c, yes, no) =>
      Sum(Sum(Sum(ModelOf(c, vars, builtins), ModelOf(yes, vars, builtins)), ModelOf(no, vars, builtins)), Flat(2))
    case TypeAssertion(_, x) => ModelOf(x, vars, builtins)
    case Varargs(_) => Flat(3)
    case Table(_, items, keyed) => ItemsOf(items, keyed, Flat(10), vars, builtins)
    case InterpString(_, _, parts) => PartsOf(parts, Flat(3), vars, builtins)
  }

  /** The entries of a table, each a value or a key and a value. */
  function ItemsOf(es: Exprs, keyed: seq<bool>, sofar: Build, vars: Masks, builtins: set<NodeId>): Build
    decreases es
  {
    if es.NoExprs? || keyed == [] then sofar
    else
      var first := Sum(sofar, ModelOf(es.head, vars, builtins));
      if keyed[0] && es.tail.MoreExprs? then
        ItemsOf(es.tail.tail, keyed[1..], Sum(Sum(first, ModelOf(es.tail.head, vars, builtins)), Flat(1)), vars, builtins)
      else ItemsOf(es.tail, keyed[1..], Sum(first, Flat(1)), vars, builtins)
  }

  function PartsOf(es: Exprs, sofar: Build, vars: Masks, builtins: set<NodeId>): Build
    decreases es
  {
    match es
    case NoExprs => sofar
    case MoreExprs(e, rest) => PartsOf(rest, Sum(sofar, ModelOf(e, vars, builtins)), vars, builtins)
  }

  /** An argument that costs nothing still has to be copied, except for a fast call. */
  function ArgumentsOf(es: Exprs, copied: bool, sofar: Build, vars: Masks, builtins: set<NodeId>): Build
    decreases es
  {
    match es
    case NoExprs => sofar
    case MoreExprs(e, rest) =>
      var b := ModelOf(e, vars, builtins);
      ArgumentsOf(rest, copied, Sum(sofar, if IsFree(b) && copied then Flat(1) else b), vars, builtins)
  }

  // ----- the cost of statements -----

  datatype Tally = Tally(vars: Masks, result: Build)

  datatype Setting = Setting(builtins: set<NodeId>, neg: L.Number -> L.Number)

  function Adding(t: Tally, b: Build): Tally {
    t.(result := Sum(t.result, b))
  }

  function AddingAll(es: Exprs, t: Tally, cx: Setting): Tally
    decreases es
  {
    match es
    case NoExprs => t
    case MoreExprs(e, rest) => AddingAll(rest, Adding(t, ModelOf(e, t.vars, cx.builtins)), cx)
  }

  /** A local takes over the mask of its value. */
  function Declared(xs: seq<LocalId>, es: Exprs, t: Tally, cx: Setting): Tally
    decreases es
  {
    match es
    case NoExprs => t
    case MoreExprs(e, rest) =>
      var b := ModelOf(e, t.vars, cx.builtins);
      var m := MaskOf(b);
      var vars := if !m.NoVariable? && xs != [] then t.vars[xs[0] := m] else t.vars;
      Declared(if xs == [] then [] else xs[1..], rest, Adding(Tally(vars, t.result), b), cx)
  }

  /** A variable that is assigned has no discount from there on. */
  function Forgotten(targets: Exprs, vars: Masks): Masks
    decreases targets
  {
    match targets
    case NoExprs => vars
    case MoreExprs(e, rest) =>
      Forgotten(rest, if e.LocalRef? && e.x in vars then vars[e.x := NoVariable] else vars)
  }

  function PairCost(targets: Exprs, values: Exprs, vars: Masks, builtins: set<NodeId>): Build {
    var b := if targets.MoreExprs? then Sum(Flat(0), ModelOf(targets.head, vars, builtins)) else Flat(0);
    if values.MoreExprs? then Sum(b, ModelOf(values.head, vars, builtins)) else b
  }

  function Tail(es: Exprs): (r: Exprs)
    ensures Count(r) == if es.NoExprs? then 0 else Count(es) - 1
  {
    if es.NoExprs? then es else es.tail
  }

  function Stored(targets: Exprs, values: Exprs, t: Tally, cx: Setting): Tally
    decreases Count(targets) + Count(values)
  {
    if targets.NoExprs? && values.NoExprs? then t
    else
      var b := PairCost(targets, values, t.vars, cx.builtins);
      Stored(Tail(targets), Tail(values), Adding(t, if IsFree(b) then Flat(1) else b), cx)
  }

  function GetNumber(e: Expr, neg: L.Number -> L.Number): Option<L.Number> {
    match e
    case Literal(_, CNumber(n)) => Some(n)
    case Unary(_, Minus, Literal(_, CNumber(n))) => Some(neg(n))
    case _ => None
  }

  /** How often the body counts: the trip count if it is known, otherwise three times. */
  function Factor(from: Expr, to: Expr, step: Exprs, neg: L.Number -> L.Number): nat {
    var f, t := GetNumber(from, neg), GetNumber(to, neg);
    var s := if step.NoExprs? then Some(L.Integral(1)) else GetNumber(step.head, neg);
    var trips := if f.Some? && t.Some? && s.Some? then FoldUnroll.GetTripCount(f.value, t.value, s.value) else -1;
    if trips < 0 then 3 else trips
  }

  predicate HasElse(no: Stat) {
    no != Block(NoStats)
  }

  function StatOf(s: Stat, t: Tally, cx: Setting): Tally
    decreases s
  {
    match s
    case LocalStat(xs, values) => Declared(xs, values, t, cx)
    case LocalFunction(_, fn) => Adding(t, ModelOf(fn, t.vars, cx.builtins))
    case Assign(targets, values) => Stored(targets, values, t.(vars := Forgotten(targets, t.vars)), cx)
    case Compound(_, target, value) =>
      var t1 := Adding(t.(vars := Forgotten(MoreExprs(target, NoExprs), t.vars)), Flat(if target.LocalRef? then 1 else 2));
      Adding(Adding(t1, ModelOf(target, t1.vars, cx.builtins)), ModelOf(value, t1.vars, cx.builtins))
    case FunctionStat(name, fn) => Adding(Adding(t, ModelOf(name, t.vars, cx.builtins)), ModelOf(fn, t.vars, cx.builtins))
    case ExprStat(e) => Adding(t, ModelOf(e, t.vars, cx.builtins))
    case Block(stats) => StatsOf(stats, t, cx)
    case If(c, yes, no) =>
      var t1 := Adding(t, Flat(1 + if HasElse(no) && !no.If? then 1 else 0));
      var t2 := StatOf(yes, Adding(t1, ModelOf(c, t.vars, cx.builtins)), cx);
      if HasElse(no) then StatOf(no, t2, cx) else t2
    case While(c, body) =>
      Repeated(t, StatOf(body, Tally(t.vars, Flat(0)), cx), ModelOf(c, t.vars, cx.builtins), 3)
    case Repeat(body, c) =>
      Repeated(t, StatOf(body, Tally(t.vars, Flat(0)), cx), ModelOf(c, t.vars, cx.builtins), 3)
    case For(_, from, to, step, body) =>
      var t1 := Adding(Adding(t, ModelOf(from, t.vars, cx.builtins)), ModelOf(to, t.vars, cx.builtins));
      var t2 := if step.NoExprs? then t1 else Adding(t1, ModelOf(step.head, t.vars, cx.builtins));
      Repeated(t2, StatOf(body, Tally(t.vars, Flat(0)), cx), Flat(1), Factor(from, to, step, cx.neg))
    case ForIn(_, values, body) =>
      var t1 := AddingAll(values, t, cx);
      Repeated(t1, StatOf(body, Tally(t1.vars, Flat(0)), cx), Flat(1), 3)
    case Return(values) => AddingAll(values, t, cx)
    case Break => Adding(t, Flat(1))
    case Continue => Adding(t, Flat(1))
  }

  function StatsOf(ss: Stats, t: Tally, cx: Setting): Tally
    decreases ss
  {
    match ss
    case NoStats => t
    case MoreStats(s, rest) => StatsOf(rest, StatOf(s, t, cx), cx)
  }

  function Repeated(before: Tally, body: Tally, each: Build, factor: nat): Tally {
    Tally(body.vars, Sum(before.result, Product(Sum(body.result, each), factor)))
  }

  /** The first seven variables have a lane each. */
  function Parameters(xs: seq<LocalId>, i: nat, vars: Masks): Masks
    decreases |xs| - i
  {
    if i >= |xs| || i >= 7 then vars else Parameters(xs, i + 1, vars[xs[i] := Variable(i)])
  }

  function BodyCost(root: Stat, xs: seq<LocalId>, cx: Setting): Build {
    StatOf(root, Tally(Parameters(xs, 0, map[]), Flat(0)), cx).result
  }

  // ----- the visitor -----

  /** A word is zero exactly when every lane is. */
  lemma FreeWord(b: Build)
    ensures PackedOf(b).model == 0 <==> IsFree(b)
  {
    var v := PlainOfBuild(b).lanes;
    EveryCostIsPlain(b);
    UnpackedPack(v, 8);
    PackZeros(8, 8);
    SameBelow(0, 8, 128);
    UnpackedPack(Same(0, 8), 8);
  }

  /** The mask word is zero exactly when no variable is known. */
  lemma MaskWordZero(b: Build)
    ensures PackedOf(b).constant == MaskWord(MaskOf(b)) && (PackedOf(b).constant == 0 <==> MaskOf(b).NoVariable?)
  {
    EveryCostIsPlain(b);
    var m := MaskOf(b);
    if m.Variable? {
      UpIsTimes(8 * m.i + 8, 0xff);
      assert Pow2(8 * m.i + 8) * 0xff > 0;
    }
  }

  // The operators on packed costs, each with the plain cost that it packs.

  method Plus(c: Cost, ghost x: Build, d: Cost, ghost y: Build) returns (r: Cost)
    requires c == PackedOf(x) && d == PackedOf(y)
    ensures r == PackedOf(Sum(x, y))
  {
    r := c.Plus(d);
  }

  method Times(c: Cost, ghost x: Build, factor: nat) returns (r: Cost)
    requires c == PackedOf(x)
    ensures r == PackedOf(Product(x, factor))
  {
    r := c.Times(factor);
  }

  method Fold(c: Cost, ghost x: Build, d: Cost, ghost y: Build) returns (r: Cost)
    requires c == PackedOf(x) && d == PackedOf(y)
    ensures r == PackedOf(Folded(x, y))
  {
    r := Cost.Fold(c, d);
  }

  class CostVisitor {
    const cx: Setting
    var vars: map<LocalId, uint64>
    var result: Cost
    ghost var masks: Masks
    ghost var built: Build

    /** The words are those of the plain tally. */
    ghost predicate Valid()
      reads this
    {
      && vars.Keys == masks.Keys
      && (forall x <- vars :: vars[x] == MaskWord(masks[x]))
      && result == PackedOf(built)
    }

    ghost function Tallied(): Tally
      reads this
    {
      Tally(masks, built)
    }

    constructor (cx: Setting, params: seq<LocalId>)
      ensures Valid() && this.cx == cx
      ensures Tallied() == Tally(Parameters(params, 0, map[]), Flat(0))
    {
      this.cx := cx;
      vars, masks := map[], map[];
      result, built := Cost.Of(0, 0), Flat(0);
      new;
      var i: nat := 0;
      while i < |params| && i < 7
        invariant i <= 7 && i <= |params|
        invariant Valid() && built == Flat(0) && this.cx == cx
        invariant Parameters(params, i, masks) == Parameters(params, 0, map[])
      {
        WordIsMarks(Variable(i));
        vars := vars[params[i] := Up(i * 8 + 8, 0xff)];
        masks := masks[params[i] := Variable(i)];
        i := i + 1;
      }
    }

    method Model(e: Expr) returns (c: Cost)
      requires Valid()
      ensures c == PackedOf(ModelOf(e, masks, cx.builtins))
      decreases e, 1
    {
      match e {
        case Group(_, x) => c := Model(x);
        case Literal(_, _) => c := Cost.Of(0, LITERAL);
        case LocalRef(_, x) => c := Cost.Of(0, if x in vars then vars[x] else 0);
        case Global(_, _) => c := Cost.Of(1, 0);
        case Call(_, _, _) => c := ModelCall(e);
        case Index(_, _, _) => c := ModelIndex(e);
        case Function(_, _, _) => c := Cost.Of(10, 0);
        case Unary(_, _, x) =>
          c := Model(x);
          c := Fold(c, ModelOf(x, masks, cx.builtins), Cost.Of(0, LITERAL), Base(0, AllConstant));
        case Binary(_, _, l, r) =>
          c := Model(l);
          var d := Model(r);
          c := Fold(c, ModelOf(l, masks, cx.builtins), d, ModelOf(r, masks, cx.builtins));
        case IfElse(_, _, _, _) => c := ModelIfElse(e);
        case TypeAssertion(_, x) => c := Model(x);
        case Varargs(_) => c := Cost.Of(3, 0);
        case Table(_, _, _) => c := ModelTable(e);
        case InterpString(_, _, _) => c := ModelInterpString(e);
      }
    }

    method ModelTable(e: Expr) returns (c: Cost)
      requires Valid() && e.Table?
      ensures c == PackedOf(ModelOf(e, masks, cx.builtins))
      decreases e, 0
    {
      c := Cost.Of(10, 0);
      ghost var sofar := Flat(10);
      var rest, i := e.items, 0;
      while rest.MoreExprs? && i < |e.keyed|
        invariant (rest == e.items || rest < e.items) && 0 <= i <= |e.keyed|
        invariant c == PackedOf(sofar)
        invariant ItemsOf(rest, e.keyed[i..], sofar, masks, cx.builtins) == ModelOf(e, masks, cx.builtins)
        decreases rest
      {
        var first := Model(rest.head);
        c := Plus(c, sofar, first, ModelOf(rest.head, masks, cx.builtins));
        sofar := Sum(sofar, ModelOf(rest.head, masks, cx.builtins));
        if e.keyed[i] && rest.tail.MoreExprs? {
          rest := rest.tail;
          var value := Model(rest.head);
          c := Plus(c, sofar, value, ModelOf(rest.head, masks, cx.builtins));
          sofar := Sum(sofar, ModelOf(rest.head, masks, cx.builtins));
        }
        c := Plus(c, sofar, Cost.Of(1, 0), Flat(1));
        sofar := Sum(sofar, Flat(1));
        rest, i := rest.tail, i + 1;
      }
    }

    method ModelInterpString(e: Expr) returns (c: Cost)
      requires Valid() && e.InterpString?
      ensures c == PackedOf(ModelOf(e, masks, cx.builtins))
      decreases e, 0
    {
      c := Cost.Of(3, 0);
      ghost var sofar := Flat(3);
      var rest := e.parts;
      while rest.MoreExprs?
        invariant rest == e.parts || rest < e.parts
        invariant c == PackedOf(sofar)
        invariant PartsOf(rest, sofar, masks, cx.builtins) == ModelOf(e, masks, cx.builtins)
        decreases rest
      {
        var part := Model(rest.head);
        c := Plus(c, sofar, part, ModelOf(rest.head, masks, cx.builtins));
        sofar := Sum(sofar, ModelOf(rest.head, masks, cx.builtins));
        rest := rest.tail;
      }
    }

    method ModelIndex(e: Expr) returns (c: Cost)
      requires Valid() && e.Index?
      ensures c == PackedOf(ModelOf(e, masks, cx.builtins))
      decreases e, 0
    {
      ghost var x, y := ModelOf(e.table, masks, cx.builtins), ModelOf(e.key, masks, cx.builtins);
      c := Model(e.table);
      var d := Model(e.key);
      c := Plus(c, x, d, y);
      c := Plus(c, Sum(x, y), Cost.Of(1, 0), Flat(1));
    }

    method ModelIfElse(e: Expr) returns (c: Cost)
      requires Valid() && e.IfElse?
      ensures c == PackedOf(ModelOf(e, masks, cx.builtins))
      decreases e, 0
    {
      ghost var x, y := ModelOf(e.cond, masks, cx.builtins), ModelOf(e.yes, masks, cx.builtins);
      ghost var z := ModelOf(e.no, masks, cx.builtins);
      c := Model(e.cond);
      var d := Model(e.yes);
      c := Plus(c, x, d, y);
      d := Model(e.no);
      c := Plus(c, Sum(x, y), d, z);
      c := Plus(c, Sum(Sum(x, y), z), Cost.Of(2, 0), Flat(2));
    }

    method ModelCall(e: Expr) returns (c: Cost)
      requires Valid() && e.Call?
      ensures c == PackedOf(ModelOf(e, masks, cx.builtins))
      decreases e, 0
    {
      var builtin := e.id in cx.builtins;
      var builtinShort := builtin && Count(e.args) <= 2;
      ghost var sofar := if builtin then Flat(2) else Sum(Flat(3), ModelOf(e.fn, masks, cx.builtins));
      c := Cost.Of(if builtin then 2 else 3, 0);
      if !builtin {
        var f := Model(e.fn);
        c := Plus(c, Flat(3), f, ModelOf(e.fn, masks, cx.builtins));
      }
      var rest := e.args;
      while rest.MoreExprs?
        invariant rest == e.args || rest < e.args
        invariant c == PackedOf(sofar)
        invariant ArgumentsOf(rest, !builtinShort, sofar, masks, cx.builtins) == ModelOf(e, masks, cx.builtins)
        decreases rest
      {
        var ac := Model(rest.head);
        ghost var b := ModelOf(rest.head, masks, cx.builtins);
        FreeWord(b);
        var copied := ac.model == 0 && !builtinShort;
        ghost var b' := if IsFree(b) && !builtinShort then Flat(1) else b;
        c := Plus(c, sofar, if copied then Cost.Of(1, 0) else ac, b');
        sofar := Sum(sofar, b');
        rest := rest.tail;
      }
    }

    method Add(c: Cost, ghost b: Build)
      requires Valid() && c == PackedOf(b)
      modifies this`result, this`built
      ensures Valid() && Tallied() == Adding(old(Tallied()), b)
    {
      result := Plus(result, built, c, b);
      built := Sum(built, b);
    }

    method AddModel(e: Expr)
      requires Valid()
      modifies this`result, this`built
      ensures Valid() && Tallied() == Adding(old(Tallied()), ModelOf(e, masks, cx.builtins))
    {
      var c := Model(e);
      Add(c, ModelOf(e, masks, cx.builtins));
    }

    method AddModels(es: Exprs)
      requires Valid()
      modifies this`result, this`built
      ensures Valid() && Tallied() == AddingAll(es, old(Tallied()), cx)
    {
      var rest := es;
      while rest.MoreExprs?
        invariant Valid() && AddingAll(rest, Tallied(), cx) == AddingAll(es, old(Tallied()), cx)
        decreases rest
      {
        AddModel(rest.head);
        rest := rest.tail;
      }
    }

    method VisitLocal(xs: seq<LocalId>, values: Exprs)
      requires Valid()
      modifies this
      ensures Valid() && Tallied() == Declared(xs, values, old(Tallied()), cx)
    {
      var rest, i := values, 0;
      while rest.MoreExprs?
        invariant 0 <= i
        invariant Valid()
        invariant Declared(if i < |xs| then xs[i..] else [], rest, Tallied(), cx) == Declared(xs, values, old(Tallied()), cx)
        decreases rest
      {
        ghost var b := ModelOf(rest.head, masks, cx.builtins);
        var arg := Model(rest.head);
        MaskWordZero(b);
        if arg.constant != 0 && i < |xs| {
          vars := vars[xs[i] := arg.constant];
          masks := masks[xs[i] := MaskOf(b)];
        }
        Add(arg, b);
        rest, i := rest.tail, i + 1;
      }
    }

    method Assigned(targets: Exprs)
      requires Valid()
      modifies this`vars, this`masks
      ensures Valid() && Tallied() == Tally(Forgotten(targets, old(masks)), built)
    {
      var rest := targets;
      while rest.MoreExprs?
        invariant Valid() && Forgotten(rest, masks) == Forgotten(targets, old(masks))
        decreases rest
      {
        if rest.head.LocalRef? && rest.head.x in vars {
          vars := vars[rest.head.x := 0];
          masks := masks[rest.head.x := NoVariable];
        }
        rest := rest.tail;
      }
    }

    /** The cost of one target with its value, either of which may be missing. */
    method ModelPair(ts: Exprs, vs: Exprs) returns (ac: Cost)
      requires Valid()
      ensures ac == PackedOf(PairCost(ts, vs, masks, cx.builtins))
    {
      ac := Cost.Of(0, 0);
      ghost var b := Flat(0);
      if ts.MoreExprs? {
        var c := Model(ts.head);
        ac := Plus(ac, b, c, ModelOf(ts.head, masks, cx.builtins));
        b := Sum(b, ModelOf(ts.head, masks, cx.builtins));
      }
      if vs.MoreExprs? {
        var c := Model(vs.head);
        ac := Plus(ac, b, c, ModelOf(vs.head, masks, cx.builtins));
      }
    }

    method VisitAssign(targets: Exprs, values: Exprs)
      requires Valid()
      modifies this
      ensures Valid() && Tallied() == Stored(targets, values, Tally(Forgotten(targets, old(masks)), old(built)), cx)
    {
      Assigned(targets);
      ghost var t := Tallied();
      var ts, vs := targets, values;
      while ts.MoreExprs? || vs.MoreExprs?
        invariant Valid() && Stored(ts, vs, Tallied(), cx) == Stored(targets, values, t, cx)
        decreases Count(ts) + Count(vs)
      {
        ghost var b := PairCost(ts, vs, masks, cx.builtins);
        var ac := ModelPair(ts, vs);
        FreeWord(b);
        Add(if ac.model == 0 then Cost.Of(1, 0) else ac, if IsFree(b) then Flat(1) else b);
        ts, vs := Tail(ts), Tail(vs);
      }
    }

    method VisitFunction(name: Expr, fn: Expr)
      requires Valid()
      modifies this`result, this`built
      ensures Valid()
      ensures Tallied() == Adding(Adding(old(Tallied()), ModelOf(name, masks, cx.builtins)), ModelOf(fn, masks, cx.builtins))
    {
      AddModel(name);
      AddModel(fn);
    }

    /** If the target is not a local, setting it takes one more operation. */
    method VisitCompound(s: Stat)
      requires Valid() && s.Compound?
      modifies this
      ensures Valid() && Tallied() == StatOf(s, old(Tallied()), cx)
    {
      var n: nat := if s.target.LocalRef? then 1 else 2;
      Assigned(MoreExprs(s.target, NoExprs));
      Add(Cost.Of(n, 0), Flat(n));
      AddModel(s.target);
      AddModel(s.value);
    }

    method Loop(body: Stat, iterCost: Cost, ghost each: Build, factor: nat)
      requires Valid() && iterCost == PackedOf(each)
      modifies this
      ensures Valid()
      ensures Tallied() == Repeated(old(Tallied()), StatOf(body, Tally(old(masks), Flat(0)), cx), each, factor)
      decreases body, 2
    {
      var before := result;
      ghost var b := built;
      result, built := Cost.Of(0, 0), Flat(0);
      Visit(body);
      var round := Plus(result, built, iterCost, each);
      var rounds := Times(round, Sum(built, each), factor);
      result := Plus(before, b, rounds, Product(Sum(built, each), factor));
      built := Sum(b, Product(Sum(built, each), factor));
    }

    method VisitFor(s: Stat)
      requires Valid() && s.For?
      modifies this
      ensures Valid() && Tallied() == StatOf(s, old(Tallied()), cx)
      decreases s, 0
    {
      AddModel(s.from);
      AddModel(s.to);
      if s.step.MoreExprs? {
        AddModel(s.step.head);
      }
      Loop(s.body, Cost.Of(1, 0), Flat(1), Factor(s.from, s.to, s.step, cx.neg));
    }

    method VisitForIn(values: Exprs, body: Stat)
      requires Valid()
      modifies this
      ensures Valid()
      ensures
        var t := AddingAll(values, old(Tallied()), cx);
        Tallied() == Repeated(t, StatOf(body, Tally(t.vars, Flat(0)), cx), Flat(1), 3)
      decreases body, 3
    {
      AddModels(values);
      Loop(body, Cost.Of(1, 0), Flat(1), 3);
    }

    /** A loop counts three times, with its condition. */
    method VisitWhile(c: Expr, body: Stat)
      requires Valid()
      modifies this
      ensures Valid()
      ensures
        var t := old(Tallied());
        Tallied() == Repeated(t, StatOf(body, Tally(t.vars, Flat(0)), cx), ModelOf(c, t.vars, cx.builtins), 3)
      decreases body, 3
    {
      var condition := Model(c);
      Loop(body, condition, ModelOf(c, masks, cx.builtins), 3);
    }

    method VisitIf(s: Stat)
      requires Valid() && s.If?
      modifies this
      ensures Valid() && Tallied() == StatOf(s, old(Tallied()), cx)
      decreases s, 0
    {
      var extra: nat := if HasElse(s.no) && !s.no.If? then 1 else 0;
      Add(Cost.Of(1 + extra, 0), Flat(1 + extra));
      AddModel(s.cond);
      Visit(s.yes);
      if HasElse(s.no) {
        Visit(s.no);
      }
    }

    method Visit(s: Stat)
      requires Valid()
      modifies this
      ensures Valid() && Tallied() == StatOf(s, old(Tallied()), cx)
      decreases s, 1
    {
      match s {
        case Block(stats) => VisitAll(stats);
        case If(_, _, _) => VisitIf(s);
        case While(c, body) => VisitWhile(c, body);
        case Repeat(body, c) => VisitWhile(c, body);
        case For(_, _, _, _, _) => VisitFor(s);
        case ForIn(_, values, body) => VisitForIn(values, body);
        case _ => VisitLeaf(s);
      }
    }

    /** A statement that holds no others. */
    method VisitLeaf(s: Stat)
      requires Valid() && !s.Block? && !s.If? && !s.While? && !s.Repeat? && !s.For? && !s.ForIn?
      modifies this
      ensures Valid() && Tallied() == StatOf(s, old(Tallied()), cx)
      decreases s, 0
    {
      match s {
        case LocalStat(xs, values) => VisitLocal(xs, values);
        case LocalFunction(_, fn) => AddModel(fn);
        case Assign(targets, values) => VisitAssign(targets, values);
        case Compound(_, _, _) => VisitCompound(s);
        case FunctionStat(name, fn) => VisitFunction(name, fn);
        case ExprStat(e) => AddModel(e);
        case Return(values) => AddModels(values);
        case Break => Add(Cost.Of(1, 0), Flat(1));
        case Continue => Add(Cost.Of(1, 0), Flat(1));
      }
    }

    method VisitAll(ss: Stats)
      requires Valid()
      modifies this
      ensures Valid() && Tallied() == StatsOf(ss, old(Tallied()), cx)
      decreases ss, 0
    {
      if ss.MoreStats? {
        Visit(ss.head);
        VisitAll(ss.tail);
      }
    }
  }

  /** The cost model of a body with its parameters. */
  method ModelCost(root: Stat, params: seq<LocalId>, cx: Setting) returns (model: uint64)
    ensures model == PackedOf(BodyCost(root, params, cx)).model
  {
    var visitor := new CostVisitor(cx, params);
    visitor.Visit(root);
    model := visitor.result.model;
  }

  /** Whatever the body and whatever is constant, the cost lies between 0 and 127, and discounts only lower it. */
  method BodyPrice(root: Stat, params: seq<LocalId>, cx: Setting, varsConst: seq<bool>) returns (cost: int)
    ensures cost == PriceOf(BodyCost(root, params, cx), varsConst)
    ensures 0 <= cost <= CostOf(BodyCost(root, params, cx)) <= 127
  {
    var model := ModelCost(root, params, cx);
    cost := ComputeCost(model, varsConst);
    PriceInRange(BodyCost(root, params, cx), varsConst);
  }
}
