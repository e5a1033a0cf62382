/**
 The folding pass as the list of what it records, in order. Everything the pass guarantees follows from two
 facts about that list: no key is written twice, and no step reads what a later one writes.
 */
module FoldPass {
  import opened Results
  import L = LuaSource
  import opened FoldSource
  import opened FoldSpec

  datatype Maps = Maps(constants: Constants, locals: Locals)

  datatype Key = At(id: NodeId) | Local(x: LocalId)

  datatype Origin = Of(e: Expr) | Missing

  /** An expression, a local with its value, or a local that is declared but whose value is never known. */
  datatype Step = OfNode(e: Expr) | OfLocal(x: LocalId, origin: Origin) | Declared(x: LocalId)

  function KeyOf(s: Step): Key {
    match s
    case OfNode(e) => At(e.id)
    case OfLocal(x, _) => Local(x)
    case Declared(x) => Local(x)
  }

  function Lookup(m: Maps, k: Key): Constant {
    if k.At? then Get(m.constants, k.id) else Get(m.locals, k.x)
  }

  function Value(m: Math, s: Step, ls: Locals): Constant {
    match s
    case OfNode(e) => Fold(m, e, ls)
    case OfLocal(_, o) => if o.Of? then Fold(m, o.e, ls) else Some(L.CNil)
    case Declared(_) => None
  }

  /** The locals whose constants decide what an expression folds to. */
  function Refs(e: Expr): set<LocalId> {
    match e
    case Group(_, x) => Refs(x)
    case LocalRef(_, x) => {x}
    case Unary(_, _, x) => Refs(x)
    case Binary(_, _, l, r) => Refs(l) + Refs(r)
    case IfElse(_, c, t, f) => Refs(c) + Refs(t) + Refs(f)
    case TypeAssertion(_, x) => Refs(x)
    case Call(_, _, args) => AllRefs(args)
    case _ => {}
  }

  function AllRefs(es: Exprs): set<LocalId> {
    if es.NoExprs? then {} else Refs(es.head) + AllRefs(es.tail)
  }

  function Reads(s: Step): set<LocalId> {
    match s
    case OfNode(e) => Refs(e)
    case OfLocal(_, o) => if o.Of? then Refs(o.e) else {}
    case Declared(_) => {}
  }

  /** Stores a known value; an unknown one overwrites an old entry, which cannot exist if the maps were empty. */
  function Record<K>(m: map<K, Constant>, key: K, value: Constant, wasEmpty: bool): map<K, Constant> {
    if value.Some? then m[key := value]
    else if !wasEmpty && key in m then m[key := None]
    else m
  }

  function RunStep(m: Math, s: Step, maps: Maps, wasEmpty: bool): Maps {
    match s
    case OfNode(e) => maps.(constants := Record(maps.constants, e.id, Value(m, s, maps.locals), wasEmpty))
    case OfLocal(x, _) => maps.(locals := Record(maps.locals, x, Value(m, s, maps.locals), wasEmpty))
    case Declared(_) => maps
  }

  function RunSteps(m: Math, steps: seq<Step>, maps: Maps, wasEmpty: bool): Maps
    decreases |steps|
  {
    if steps == [] then maps else RunSteps(m, steps[1..], RunStep(m, steps[0], maps, wasEmpty), wasEmpty)
  }

  lemma {:induction false} RunAppend(m: Math, a: seq<Step>, b: seq<Step>, maps: Maps, wasEmpty: bool)
    ensures RunSteps(m, a + b, maps, wasEmpty) == RunSteps(m, b, RunSteps(m, a, maps, wasEmpty), wasEmpty)
    decreases |a|
  {
    if a == [] {
      assert a + b == b;
    } else {
      assert (a + b)[1..] == a[1..] + b;
      RunAppend(m, a[1..], b, RunStep(m, a[0], maps, wasEmpty), wasEmpty);
    }
  }

  // ----- well-scoped lists of steps -----

  /** `s` comes before `t`: they have different keys, and `s` does not depend on what `t` records. */
  predicate Before(s: Step, t: Step) {
    KeyOf(s) != KeyOf(t) && !(KeyOf(t).Local? && KeyOf(t).x in Reads(s))
  }

  predicate Independent(s: Step) {
    !(KeyOf(s).Local? && KeyOf(s).x in Reads(s))
  }

  /** Every key is recorded once; nothing depends on itself or on a later step. */
  ghost predicate Scoped(steps: seq<Step>) {
    && (forall i :: 0 <= i < |steps| ==> Independent(steps[i]))
    && (forall i, j :: 0 <= i < j < |steps| ==> Before(steps[i], steps[j]))
  }

  lemma ScopedParts(a: seq<Step>, b: seq<Step>)
    requires Scoped(a + b)
    ensures Scoped(a) && Scoped(b)
    ensures forall i, j :: 0 <= i < |a| && 0 <= j < |b| ==> Before(a[i], b[j])
  {
    var ab := a + b;
    forall i, j | 0 <= i < j < |b|
      ensures Before(b[i], b[j])
    {
      assert ab[|a| + i] == b[i] && ab[|a| + j] == b[j];
    }
    forall i | 0 <= i < |b|
      ensures Independent(b[i])
    {
      assert ab[|a| + i] == b[i];
    }
    forall i | 0 <= i < |a|
      ensures Independent(a[i])
    {
      assert ab[i] == a[i];
    }
    forall i, j | 0 <= i < j < |a|
      ensures Before(a[i], a[j])
    {
      assert ab[i] == a[i] && ab[j] == a[j];
    }
    forall i, j | 0 <= i < |a| && 0 <= j < |b|
      ensures Before(a[i], b[j])
    {
      assert ab[i] == a[i] && ab[|a| + j] == b[j];
    }
  }

  ghost predicate Touches(steps: seq<Step>, k: Key) {
    exists i :: 0 <= i < |steps| && KeyOf(steps[i]) == k
  }

  /** Two pairs of maps agree on what a step depends on. */
  ghost predicate AgreeOn(xs: set<LocalId>, ls: Locals, ls': Locals) {
    forall x <- xs :: Get(ls, x) == Get(ls', x)
  }

  lemma {:induction false} FoldDependsOnRefs(m: Math, e: Expr, ls: Locals, ls': Locals)
    requires AgreeOn(Refs(e), ls, ls')
    ensures Fold(m, e, ls) == Fold(m, e, ls')
    decreases e
  {
    match e
    case Group(_, x) => FoldDependsOnRefs(m, x, ls, ls');
    case Unary(_, _, x) => FoldDependsOnRefs(m, x, ls, ls');
    case Binary(_, _, l, r) =>
      FoldDependsOnRefs(m, l, ls, ls');
      FoldDependsOnRefs(m, r, ls, ls');
    case IfElse(_, c, t, f) =>
      FoldDependsOnRefs(m, c, ls, ls');
      FoldDependsOnRefs(m, t, ls, ls');
      FoldDependsOnRefs(m, f, ls, ls');
    case TypeAssertion(_, x) => FoldDependsOnRefs(m, x, ls, ls');
    case Call(_, _, args) => FoldAllDependsOnRefs(m, args, ls, ls');
    case _ =>
  }

  lemma {:induction false} FoldAllDependsOnRefs(m: Math, es: Exprs, ls: Locals, ls': Locals)
    requires AgreeOn(AllRefs(es), ls, ls')
    ensures FoldAll(m, es, ls) == FoldAll(m, es, ls')
    decreases es
  {
    if es.MoreExprs? {
      FoldDependsOnRefs(m, es.head, ls, ls');
      FoldAllDependsOnRefs(m, es.tail, ls, ls');
    }
  }

  lemma ValueDependsOnReads(m: Math, s: Step, ls: Locals, ls': Locals)
    requires AgreeOn(Reads(s), ls, ls')
    ensures Value(m, s, ls) == Value(m, s, ls')
  {
    match s
    case OfNode(e) => FoldDependsOnRefs(m, e, ls, ls');
    case OfLocal(_, o) => if o.Of? { FoldDependsOnRefs(m, o.e, ls, ls'); }
    case _ =>
  }

  // ----- what the pass leaves behind -----

  /** The pass writes no key but those of its steps. */
  lemma {:induction false} RunFrame(m: Math, steps: seq<Step>, maps: Maps, wasEmpty: bool, k: Key)
    requires !Touches(steps, k)
    ensures Lookup(RunSteps(m, steps, maps, wasEmpty), k) == Lookup(maps, k)
    decreases |steps|
  {
    if steps != [] {
      assert KeyOf(steps[0]) != k;
      forall i | 0 <= i < |steps[1..]|
        ensures KeyOf(steps[1..][i]) != k
      {
        assert steps[1..][i] == steps[i + 1];
      }
      RunFrame(m, steps[1..], RunStep(m, steps[0], maps, wasEmpty), wasEmpty, k);
    }
  }

  /** The maps hold what the step would record. */
  ghost predicate StepFits(m: Math, s: Step, maps: Maps) {
    Lookup(maps, KeyOf(s)) == Value(m, s, maps.locals)
  }

  ghost predicate AllFit(m: Math, steps: seq<Step>, maps: Maps) {
    forall i :: 0 <= i < |steps| ==> StepFits(m, steps[i], maps)
  }

  /** In maps that were empty nothing is recorded yet; a local that is only declared is never recorded. */
  ghost predicate Startable(steps: seq<Step>, maps: Maps, wasEmpty: bool) {
    forall i :: 0 <= i < |steps| ==> wasEmpty || steps[i].Declared? ==> Lookup(maps, KeyOf(steps[i])) == None
  }

  /** Later steps do not change what a step would record. */
  lemma ValueStays(m: Math, s: Step, later: seq<Step>, maps: Maps, wasEmpty: bool)
    requires forall j :: 0 <= j < |later| ==> Before(s, later[j])
    ensures Value(m, s, RunSteps(m, later, maps, wasEmpty).locals) == Value(m, s, maps.locals)
  {
    var after := RunSteps(m, later, maps, wasEmpty);
    forall x <- Reads(s)
      ensures Get(maps.locals, x) == Get(after.locals, x)
    {
      RunFrame(m, later, maps, wasEmpty, Local(x));
    }
    ValueDependsOnReads(m, s, maps.locals, after.locals);
  }

  /** A step still fits after later ones. */
  lemma LaterKeepsFit(m: Math, s: Step, later: seq<Step>, maps: Maps, wasEmpty: bool)
    requires StepFits(m, s, maps) && forall j :: 0 <= j < |later| ==> Before(s, later[j])
    ensures StepFits(m, s, RunSteps(m, later, maps, wasEmpty))
  {
    RunFrame(m, later, maps, wasEmpty, KeyOf(s));
    ValueStays(m, s, later, maps, wasEmpty);
  }

  /** After the pass the maps hold, at every key, exactly what folding gives in those very maps. */
  lemma {:induction false} PassFits(m: Math, steps: seq<Step>, maps: Maps, wasEmpty: bool)
    requires Scoped(steps) && Startable(steps, maps, wasEmpty)
    ensures AllFit(m, steps, RunSteps(m, steps, maps, wasEmpty))
    decreases |steps|
  {
    if steps != [] {
      var s, rest := steps[0], steps[1..];
      var one := RunStep(m, s, maps, wasEmpty);
      assert steps == [s] + rest;
      ScopedParts([s], rest);
      forall j | 0 <= j < |rest|
        ensures Before(s, rest[j]) && (wasEmpty || rest[j].Declared? ==> Lookup(one, KeyOf(rest[j])) == None)
      {
        assert rest[j] == steps[j + 1] && Before([s][0], rest[j]);
      }
      PassFits(m, rest, one, wasEmpty);
      FirstFits(m, s, maps, wasEmpty);
      LaterKeepsFit(m, s, rest, one, wasEmpty);
      forall i | 0 <= i < |steps|
        ensures StepFits(m, steps[i], RunSteps(m, steps, maps, wasEmpty))
      {
        assert i > 0 ==> steps[i] == rest[i - 1];
      }
    }
  }

  lemma FirstFits(m: Math, s: Step, maps: Maps, wasEmpty: bool)
    requires Independent(s) && (wasEmpty || s.Declared? ==> Lookup(maps, KeyOf(s)) == None)
    ensures StepFits(m, s, RunStep(m, s, maps, wasEmpty))
  {
    var one := RunStep(m, s, maps, wasEmpty);
    ValueDependsOnReads(m, s, maps.locals, one.locals);
  }

  /** Maps that fit are determined by what they say of the locals from outside. */
  lemma {:induction false} FitIsUnique(m: Math, steps: seq<Step>, a: Maps, b: Maps, k: Key)
    requires Scoped(steps) && AllFit(m, steps, a) && AllFit(m, steps, b)
    requires forall x: LocalId :: !Touches(steps, Local(x)) ==> Get(a.locals, x) == Get(b.locals, x)
    requires Touches(steps, k)
    ensures Lookup(a, k) == Lookup(b, k)
  {
    var i :| 0 <= i < |steps| && KeyOf(steps[i]) == k;
    FitIsUniqueAt(m, steps, a, b, i);
  }

  lemma {:induction false} FitIsUniqueAt(m: Math, steps: seq<Step>, a: Maps, b: Maps, i: nat)
    requires Scoped(steps) && AllFit(m, steps, a) && AllFit(m, steps, b) && i < |steps|
    requires forall x: LocalId :: !Touches(steps, Local(x)) ==> Get(a.locals, x) == Get(b.locals, x)
    ensures Lookup(a, KeyOf(steps[i])) == Lookup(b, KeyOf(steps[i]))
    decreases i
  {
    var s := steps[i];
    assert StepFits(m, s, a) && StepFits(m, s, b);
    forall x <- Reads(s)
      ensures Get(a.locals, x) == Get(b.locals, x)
    {
      if Touches(steps, Local(x)) {
        var j: nat :| j < |steps| && KeyOf(steps[j]) == Local(x);
        assert j > i ==> Before(s, steps[j]);
        assert Independent(s);
        FitIsUniqueAt(m, steps, a, b, j);
      }
    }
    ValueDependsOnReads(m, s, a.locals, b.locals);
  }

  // ----- the steps of a program -----

  /** Written locals are never recorded. */
  ghost predicate Unwritten(steps: seq<Step>, w: set<LocalId>) {
    forall s <- steps :: s.OfLocal? ==> s.x !in w
  }

  function StepsE(e: Expr, w: set<LocalId>): (r: seq<Step>)
    ensures |r| > 0 && r[|r| - 1] == OfNode(e)
    ensures Unwritten(r, w)
    decreases e, 1
  {
    Inner(e, w) + [OfNode(e)]
  }

  /** What is recorded before the expression itself. */
  function Inner(e: Expr, w: set<LocalId>): (r: seq<Step>)
    ensures Unwritten(r, w)
    decreases e, 0
  {
    match e
    case Group(_, x) => StepsE(x, w)
    case Call(_, fn, args) => StepsE(fn, w) + StepsEs(args, w)
    case Index(_, t, k) => StepsE(t, w) + StepsE(k, w)
    case Function(_, params, body) => Declare(params) + Steps(body, w)
    case Unary(_, _, x) => StepsE(x, w)
    case Binary(_, _, l, r) => StepsE(l, w) + StepsE(r, w)
    case IfElse(_, c, t, f) => StepsE(c, w) + StepsE(t, w) + StepsE(f, w)
    case TypeAssertion(_, x) => StepsE(x, w)
    case Table(_, items, _) => StepsEs(items, w)
    case InterpString(_, _, parts) => StepsEs(parts, w)
    case _ => []
  }

  function StepsEs(es: Exprs, w: set<LocalId>): (r: seq<Step>)
    ensures Unwritten(r, w)
    decreases es, 0
  {
    if es.NoExprs? then [] else StepsE(es.head, w) + StepsEs(es.tail, w)
  }

  function Declare(xs: seq<LocalId>): (r: seq<Step>)
    ensures forall s <- r :: s.Declared?
  {
    if xs == [] then [] else [Declared(xs[0])] + Declare(xs[1..])
  }

  /** A written local's value is not recorded. */
  function Assigned(x: LocalId, origin: Origin, w: set<LocalId>): Step {
    if x in w then Declared(x) else OfLocal(x, origin)
  }

  /** Variables without a value are nil, unless the last value may be several. */
  function StepsLocal(vars: seq<LocalId>, values: Exprs, rest: Constant, w: set<LocalId>): (r: seq<Step>)
    ensures Unwritten(r, w)
    decreases values, 1, |vars|
  {
    if vars == [] then StepsEs(values, w)
    else if values.MoreExprs? then
      StepsE(values.head, w) + [Assigned(vars[0], Of(values.head), w)] + StepsLocal(vars[1..], values.tail, rest, w)
    else
      [if rest.None? then Declared(vars[0]) else Assigned(vars[0], Missing, w)] + StepsLocal(vars[1..], values, rest, w)
  }

  function Steps(s: Stat, w: set<LocalId>): (r: seq<Step>)
    ensures Unwritten(r, w)
    decreases s, 0
  {
    match s
    case LocalStat(vars, values) => StepsLocal(vars, values, Rest(values), w)
    case LocalFunction(x, fn) => [Declared(x)] + StepsE(fn, w)
    case Assign(targets, values) => StepsEs(targets, w) + StepsEs(values, w)
    case Compound(_, target, value) => StepsE(target, w) + StepsE(value, w)
    case FunctionStat(name, fn) => StepsE(name, w) + StepsE(fn, w)
    case ExprStat(e) => StepsE(e, w)
    case Block(stats) => StepsList(stats, w)
    case If(c, yes, no) => StepsE(c, w) + Steps(yes, w) + Steps(no, w)
    case While(c, body) => StepsE(c, w) + Steps(body, w)
    case Repeat(body, c) => Steps(body, w) + StepsE(c, w)
    case For(x, from, to, step, body) => StepsE(from, w) + StepsE(to, w) + StepsEs(step, w) + [Declared(x)] + Steps(body, w)
    case ForIn(vars, values, body) => StepsEs(values, w) + Declare(vars) + Steps(body, w)
    case Return(values) => StepsEs(values, w)
    case Break => []
    case Continue => []
  }

  function StepsList(ss: Stats, w: set<LocalId>): (r: seq<Step>)
    ensures Unwritten(r, w)
    decreases ss, 0
  {
    if ss.NoStats? then [] else Steps(ss.head, w) + StepsList(ss.tail, w)
  }

  // ----- maps that fit the list fit the program -----

  lemma AllFitParts(m: Math, a: seq<Step>, b: seq<Step>, maps: Maps)
    requires AllFit(m, a + b, maps)
    ensures AllFit(m, a, maps) && AllFit(m, b, maps)
  {
    forall i | 0 <= i < |a|
      ensures StepFits(m, a[i], maps)
    {
      assert (a + b)[i] == a[i];
    }
    forall i | 0 <= i < |b|
      ensures StepFits(m, b[i], maps)
    {
      assert (a + b)[|a| + i] == b[i];
    }
  }

  lemma {:induction false} FitsFromStepsE(m: Math, e: Expr, maps: Maps, w: set<LocalId>)
    requires AllFit(m, StepsE(e, w), maps)
    ensures FitsE(m, e, maps.constants, maps.locals, w, true)
    decreases e
  {
    AllFitParts(m, Inner(e, w), [OfNode(e)], maps);
    assert StepFits(m, [OfNode(e)][0], maps);
    match e
    case Group(_, x) => FitsFromStepsE(m, x, maps, w);
    case Call(_, fn, args) =>
      AllFitParts(m, StepsE(fn, w), StepsEs(args, w), maps);
      FitsFromStepsE(m, fn, maps, w);
      FitsFromStepsEs(m, args, maps, w);
    case Index(_, t, k) =>
      AllFitParts(m, StepsE(t, w), StepsE(k, w), maps);
      FitsFromStepsE(m, t, maps, w);
      FitsFromStepsE(m, k, maps, w);
    case Function(_, params, body) =>
      AllFitParts(m, Declare(params), Steps(body, w), maps);
      DeclaredUnknown(m, params, maps);
      FitsFromSteps(m, body, maps, w);
    case Unary(_, _, x) => FitsFromStepsE(m, x, maps, w);
    case Binary(_, _, l, r) =>
      AllFitParts(m, StepsE(l, w), StepsE(r, w), maps);
      FitsFromStepsE(m, l, maps, w);
      FitsFromStepsE(m, r, maps, w);
    case IfElse(_, c, t, f) =>
      AllFitParts(m, StepsE(c, w) + StepsE(t, w), StepsE(f, w), maps);
      AllFitParts(m, StepsE(c, w), StepsE(t, w), maps);
      FitsFromStepsE(m, c, maps, w);
      FitsFromStepsE(m, t, maps, w);
      FitsFromStepsE(m, f, maps, w);
    case TypeAssertion(_, x) => FitsFromStepsE(m, x, maps, w);
    case Table(_, items, _) => FitsFromStepsEs(m, items, maps, w);
    case InterpString(_, _, parts) => FitsFromStepsEs(m, parts, maps, w);
    case _ =>
  }

  lemma {:induction false} DeclaredUnknown(m: Math, xs: seq<LocalId>, maps: Maps)
    requires AllFit(m, Declare(xs), maps)
    ensures Unknown(xs, maps.locals)
    decreases |xs|
  {
    if xs != [] {
      AllFitParts(m, [Declared(xs[0])], Declare(xs[1..]), maps);
      assert StepFits(m, [Declared(xs[0])][0], maps);
      DeclaredUnknown(m, xs[1..], maps);
      assert xs == [xs[0]] + xs[1..];
    }
  }

  lemma {:induction false} FitsFromStepsEs(m: Math, es: Exprs, maps: Maps, w: set<LocalId>)
    requires AllFit(m, StepsEs(es, w), maps)
    ensures FitsEs(m, es, maps.constants, maps.locals, w, true)
    decreases es, 0
  {
    if es.MoreExprs? {
      AllFitParts(m, StepsE(es.head, w), StepsEs(es.tail, w), maps);
      FitsFromStepsE(m, es.head, maps, w);
      FitsFromStepsEs(m, es.tail, maps, w);
    }
  }

  lemma {:induction false} FitsFromStepsLocal(m: Math, vars: seq<LocalId>, values: Exprs, rest: Constant, maps: Maps, w: set<LocalId>)
    requires AllFit(m, StepsLocal(vars, values, rest, w), maps) && (rest.Some? ==> rest == Some(L.CNil))
    ensures FitsEs(m, values, maps.constants, maps.locals, w, true)
    ensures DeclarationFits(m, vars, values, rest, maps.locals, w)
    decreases values, 1, |vars|
  {
    if vars == [] {
      FitsFromStepsEs(m, values, maps, w);
    } else if values.MoreExprs? {
      var one := [Assigned(vars[0], Of(values.head), w)];
      AllFitParts(m, StepsE(values.head, w) + one, StepsLocal(vars[1..], values.tail, rest, w), maps);
      AllFitParts(m, StepsE(values.head, w), one, maps);
      assert StepFits(m, one[0], maps);
      FitsFromStepsE(m, values.head, maps, w);
      FitsFromStepsLocal(m, vars[1..], values.tail, rest, maps, w);
    } else {
      var one := [if rest.None? then Declared(vars[0]) else Assigned(vars[0], Missing, w)];
      AllFitParts(m, one, StepsLocal(vars[1..], values, rest, w), maps);
      assert StepFits(m, one[0], maps);
      FitsFromStepsLocal(m, vars[1..], values, rest, maps, w);
    }
  }

  lemma {:induction false} RestIsNil(values: Exprs)
    ensures Rest(values).Some? ==> Rest(values) == Some(L.CNil)
    decreases values
  {
    if values.MoreExprs? {
      RestIsNil(values.tail);
    }
  }

  /** Maps that fit every step of a statement fit the statement. */
  lemma {:induction false} FitsFromSteps(m: Math, s: Stat, maps: Maps, w: set<LocalId>)
    requires AllFit(m, Steps(s, w), maps)
    ensures Fits(m, s, maps.constants, maps.locals, w, true)
    decreases s
  {
    match s
    case LocalStat(vars, values) =>
      RestIsNil(values);
      FitsFromStepsLocal(m, vars, values, Rest(values), maps, w);
    case LocalFunction(x, fn) =>
      AllFitParts(m, [Declared(x)], StepsE(fn, w), maps);
      assert StepFits(m, [Declared(x)][0], maps);
      FitsFromStepsE(m, fn, maps, w);
    case Assign(targets, values) =>
      AllFitParts(m, StepsEs(targets, w), StepsEs(values, w), maps);
      FitsFromStepsEs(m, targets, maps, w);
      FitsFromStepsEs(m, values, maps, w);
    case Compound(_, target, value) =>
      AllFitParts(m, StepsE(target, w), StepsE(value, w), maps);
      FitsFromStepsE(m, target, maps, w);
      FitsFromStepsE(m, value, maps, w);
    case FunctionStat(name, fn) =>
      AllFitParts(m, StepsE(name, w), StepsE(fn, w), maps);
      FitsFromStepsE(m, name, maps, w);
      FitsFromStepsE(m, fn, maps, w);
    case ExprStat(e) => FitsFromStepsE(m, e, maps, w);
    case Block(stats) => FitsFromStepsList(m, stats, maps, w);
    case If(c, yes, no) =>
      AllFitParts(m, StepsE(c, w) + Steps(yes, w), Steps(no, w), maps);
      AllFitParts(m, StepsE(c, w), Steps(yes, w), maps);
      FitsFromStepsE(m, c, maps, w);
      FitsFromSteps(m, yes, maps, w);
      FitsFromSteps(m, no, maps, w);
    case While(c, body) =>
      AllFitParts(m, StepsE(c, w), Steps(body, w), maps);
      FitsFromStepsE(m, c, maps, w);
      FitsFromSteps(m, body, maps, w);
    case Repeat(body, c) =>
      AllFitParts(m, Steps(body, w), StepsE(c, w), maps);
      FitsFromSteps(m, body, maps, w);
      FitsFromStepsE(m, c, maps, w);
    case For(x, from, to, step, body) =>
      AllFitParts(m, StepsE(from, w) + StepsE(to, w) + StepsEs(step, w) + [Declared(x)], Steps(body, w), maps);
      AllFitParts(m, StepsE(from, w) + StepsE(to, w) + StepsEs(step, w), [Declared(x)], maps);
      AllFitParts(m, StepsE(from, w) + StepsE(to, w), StepsEs(step, w), maps);
      AllFitParts(m, StepsE(from, w), StepsE(to, w), maps);
      assert StepFits(m, [Declared(x)][0], maps);
      FitsFromStepsE(m, from, maps, w);
      FitsFromStepsE(m, to, maps, w);
      FitsFromStepsEs(m, step, maps, w);
      FitsFromSteps(m, body, maps, w);
    case ForIn(vars, values, body) =>
      AllFitParts(m, StepsEs(values, w) + Declare(vars), Steps(body, w), maps);
      AllFitParts(m, StepsEs(values, w), Declare(vars), maps);
      FitsFromStepsEs(m, values, maps, w);
      DeclaredUnknown(m, vars, maps);
      FitsFromSteps(m, body, maps, w);
    case Return(values) => FitsFromStepsEs(m, values, maps, w);
    case _ =>
  }

  lemma {:induction false} FitsFromStepsList(m: Math, ss: Stats, maps: Maps, w: set<LocalId>)
    requires AllFit(m, StepsList(ss, w), maps)
    ensures FitsList(m, ss, maps.constants, maps.locals, w, true)
    decreases ss
  {
    if ss.MoreStats? {
      AllFitParts(m, Steps(ss.head, w), StepsList(ss.tail, w), maps);
      FitsFromSteps(m, ss.head, maps, w);
      FitsFromStepsList(m, ss.tail, maps, w);
    }
  }
}
