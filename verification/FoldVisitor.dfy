/** The two passes over a program, as visitors that update their maps in place. */
module FoldVisitor {
  import opened Results
  import L = LuaSource
  import opened FoldSource
  import opened FoldSpec
  import opened FoldPass
  import opened FoldSound

  /** The locals of a program and whether they are ever assigned to. */
  class ValueVisitor {
    var written: set<LocalId>

    constructor ()
      ensures written == {}
    {
      written := {};
    }

    method AssignTo(target: Expr)
      modifies this
      ensures written == old(written) + WrittenTarget(target)
      decreases target, 2
    {
      if target.LocalRef? {
        written := written + {target.x};
      } else {
        VisitExpr(target);
      }
    }

    method VisitExpr(e: Expr)
      modifies this
      ensures written == old(written) + WrittenE(e)
      decreases e, 1
    {
      match e {
        case Group(_, x) => VisitExpr(x);
        case Call(_, fn, args) =>
          VisitExpr(fn);
          VisitExprs(args);
        case Index(_, t, k) =>
          VisitExpr(t);
          VisitExpr(k);
        case Function(_, _, body) => Visit(body);
        case Unary(_, _, x) => VisitExpr(x);
        case Binary(_, _, l, r) =>
          VisitExpr(l);
          VisitExpr(r);
        case IfElse(_, c, t, f) =>
          VisitExpr(c);
          VisitExpr(t);
          VisitExpr(f);
        case TypeAssertion(_, x) => VisitExpr(x);
        case Table(_, items, _) => VisitExprs(items);
        case InterpString(_, _, parts) => VisitExprs(parts);
        case Literal(_, _) =>
        case LocalRef(_, _) =>
        case Global(_, _) =>
        case Varargs(_) =>
      }
    }

    method VisitExprs(es: Exprs)
      modifies this
      ensures written == old(written) + WrittenEs(es)
      decreases es, 0
    {
      if es.MoreExprs? {
        VisitExpr(es.head);
        VisitExprs(es.tail);
      }
    }

    method AssignToAll(targets: Exprs)
      modifies this
      ensures written == old(written) + WrittenTargets(targets)
      decreases targets, 0
    {
      if targets.MoreExprs? {
        AssignTo(targets.head);
        AssignToAll(targets.tail);
      }
    }

    method Visit(s: Stat)
      modifies this
      ensures written == old(written) + Written(s)
      decreases s, 0
    {
      match s {
        case LocalStat(_, values) => VisitExprs(values);
        case LocalFunction(_, fn) => VisitExpr(fn);
        case Assign(targets, values) =>
          AssignToAll(targets);
          VisitExprs(values);
        case Compound(_, target, value) =>
          AssignTo(target);
          VisitExpr(value);
        case FunctionStat(name, fn) =>
          AssignTo(name);
          VisitExpr(fn);
        case ExprStat(e) => VisitExpr(e);
        case Block(stats) => VisitAll(stats);
        case If(c, yes, no) =>
          VisitExpr(c);
          Visit(yes);
          Visit(no);
        case While(c, body) =>
          VisitExpr(c);
          Visit(body);
        case Repeat(body, c) =>
          Visit(body);
          VisitExpr(c);
        case For(_, from, to, step, body) =>
          VisitExpr(from);
          VisitExpr(to);
          VisitExprs(step);
          Visit(body);
        case ForIn(_, values, body) =>
          VisitExprs(values);
          Visit(body);
        case Return(values) => VisitExprs(values);
        case Break =>
        case Continue =>
      }
    }

    method VisitAll(ss: Stats)
      modifies this
      ensures written == old(written) + WrittenList(ss)
      decreases ss, 0
    {
      if ss.MoreStats? {
        Visit(ss.head);
        VisitAll(ss.tail);
      }
    }
  }

  // ----- values returned while the maps go on changing -----

  /** The value an expression had keeps being what it folds to. */
  lemma FoldStays(m: Math, e: Expr, w: set<LocalId>, before: seq<Step>, later: seq<Step>, maps: Maps, wasEmpty: bool)
    requires Scoped(before + StepsE(e, w) + later)
    ensures Fold(m, e, RunSteps(m, later, maps, wasEmpty).locals) == Fold(m, e, maps.locals)
  {
    var first := before + StepsE(e, w);
    ScopedParts(first, later);
    assert first[|first| - 1] == OfNode(e);
    forall j | 0 <= j < |later|
      ensures Before(OfNode(e), later[j])
    {
      assert Before(first[|first| - 1], later[j]);
    }
    ValueStays(m, OfNode(e), later, maps, wasEmpty);
  }

  lemma RunLast(m: Math, a: seq<Step>, s: Step, maps: Maps, wasEmpty: bool)
    ensures RunSteps(m, a + [s], maps, wasEmpty) == RunStep(m, s, RunSteps(m, a, maps, wasEmpty), wasEmpty)
  {
    RunAppend(m, a, [s], maps, wasEmpty);
  }

  class ConstantVisitor {
    const math: Math
    const written: set<LocalId>
    const wasEmpty: bool
    var constants: Constants
    var locals: Locals

    constructor (math: Math, written: set<LocalId>, constants: Constants, locals: Locals)
      ensures this.math == math && this.written == written
      ensures this.constants == constants && this.locals == locals
      ensures wasEmpty == (constants == map[] && locals == map[])
    {
      this.math, this.written, this.constants, this.locals := math, written, constants, locals;
      this.wasEmpty := constants == map[] && locals == map[];
    }

    function State(): Maps
      reads this
    {
      Maps(constants, locals)
    }

    function After(steps: seq<Step>, maps: Maps): Maps {
      RunSteps(math, steps, maps, wasEmpty)
    }

    method RecordConstant(node: Expr, value: Constant)
      modifies this`constants
      ensures constants == Record(old(constants), node.id, value, wasEmpty)
    {
      if value.Some? {
        constants := constants[node.id := value];
      } else if wasEmpty {
      } else if node.id in constants {
        constants := constants[node.id := None];
      }
    }

    method RecordValue(x: LocalId, value: Constant)
      modifies this`locals
      ensures locals == if x in written then old(locals) else Record(old(locals), x, value, wasEmpty)
    {
      if x !in written {
        if value.Some? {
          locals := locals[x := value];
        } else if wasEmpty {
        } else if x in locals {
          locals := locals[x := None];
        }
      }
    }

    /** Records the constants in an expression, and returns the one of the whole. */
    method Analyze(node: Expr) returns (result: Constant)
      requires Scoped(StepsE(node, written))
      modifies this
      ensures State() == After(StepsE(node, written), old(State()))
      ensures result == Fold(math, node, locals)
      decreases node, 3
    {
      ghost var start := State();
      ScopedParts(Inner(node, written), [OfNode(node)]);
      result := AnalyzeInner(node);
      ghost var inner := State();
      RecordConstant(node, result);
      RunLast(math, Inner(node, written), OfNode(node), start, wasEmpty);
      assert State() == RunStep(math, OfNode(node), inner, wasEmpty);
    }

    method AnalyzeInner(node: Expr) returns (result: Constant)
      requires Scoped(Inner(node, written))
      modifies this
      ensures State() == After(Inner(node, written), old(State()))
      ensures result == Fold(math, node, locals)
      decreases node, 2
    {
      result := None;
      match node {
        case Group(_, x) => result := Analyze(x);
        case Literal(_, c) => result := Some(c);
        case LocalRef(_, x) => if x in locals { result := locals[x]; }
        case Global(_, _) =>
        case Call(_, fn, args) =>
          Sequence(StepsE(fn, written), StepsEs(args, written));
          var _ := Analyze(fn);
          var builtinArgs := AnalyzeAll(args);
          if node.id in math.builtins && builtinArgs.Some? {
            result := math.builtin(node.id, builtinArgs.value);
          }
        case Index(_, t, k) =>
          Sequence(StepsE(t, written), StepsE(k, written));
          var _ := Analyze(t);
          var _ := Analyze(k);
          if node.id in math.builtins {
            result := math.builtin(node.id, []);
          }
        case Function(_, params, body) =>
          Sequence(Declare(params), Steps(body, written));
          RunDeclared(math, Declare(params), State(), wasEmpty);
          Visit(body);
        case Unary(_, op, x) =>
          var arg := Analyze(x);
          if arg.Some? {
            result := FoldUnary(math, op, arg.value);
          }
        case Binary(_, op, l, r) =>
          var la, ra := AnalyzeTwo(node, l, r);
          if la.Some? {
            result := FoldBinary(math, op, la.value, ra);
          }
        case IfElse(_, c, t, f) =>
          var cond, yes, no := AnalyzeThree(node, c, t, f);
          if cond.Some? {
            result := if L.Truthful(cond.value) then yes else no;
          }
        case TypeAssertion(_, x) => result := Analyze(x);
        case Varargs(_) =>
        case Table(_, items, _) => var _ := AnalyzeAll(items);
        case InterpString(_, _, parts) => var _ := AnalyzeAll(parts);
      }
    }

    lemma Sequence(a: seq<Step>, b: seq<Step>)
      requires Scoped(a + b)
      ensures Scoped(a) && Scoped(b)
      ensures forall maps :: After(a + b, maps) == After(b, After(a, maps))
    {
      ScopedParts(a, b);
      forall maps {
        RunAppend(math, a, b, maps, wasEmpty);
      }
    }

    lemma Single(s: Step)
      ensures forall maps :: After([s], maps) == RunStep(math, s, maps, wasEmpty)
    {
      forall maps: Maps
        ensures After([s], maps) == RunStep(math, s, maps, wasEmpty)
      {
        assert [s][1..] == [];
        RunLast(math, [], s, maps, wasEmpty);
        assert [] + [s] == [s];
      }
    }

    method AnalyzeTwo(ghost node: Expr, l: Expr, r: Expr) returns (la: Constant, ra: Constant)
      requires node.Binary? && l == node.left && r == node.right
      requires Scoped(StepsE(l, written) + StepsE(r, written))
      modifies this
      ensures State() == After(StepsE(l, written) + StepsE(r, written), old(State()))
      ensures la == Fold(math, l, locals) && ra == Fold(math, r, locals)
      decreases node, 1
    {
      Sequence(StepsE(l, written), StepsE(r, written));
      la := Analyze(l);
      assert [] + StepsE(l, written) + StepsE(r, written) == StepsE(l, written) + StepsE(r, written);
      FoldStays(math, l, written, [], StepsE(r, written), State(), wasEmpty);
      ra := Analyze(r);
    }

    method AnalyzeThree(ghost node: Expr, c: Expr, t: Expr, f: Expr) returns (cond: Constant, yes: Constant, no: Constant)
      requires node.IfElse? && c == node.cond && t == node.yes && f == node.no
      requires Scoped(StepsE(c, written) + StepsE(t, written) + StepsE(f, written))
      modifies this
      ensures State() == After(StepsE(c, written) + StepsE(t, written) + StepsE(f, written), old(State()))
      ensures cond == Fold(math, c, locals) && yes == Fold(math, t, locals) && no == Fold(math, f, locals)
      decreases node, 1
    {
      Sequence(StepsE(c, written) + StepsE(t, written), StepsE(f, written));
      Sequence(StepsE(c, written), StepsE(t, written));
      cond := Analyze(c);
      assert [] + StepsE(c, written) + StepsE(t, written) == StepsE(c, written) + StepsE(t, written);
      FoldStays(math, c, written, [], StepsE(t, written), State(), wasEmpty);
      yes := Analyze(t);
      FirstOfThree(c, t, f, State());
      no := Analyze(f);
    }

    lemma FirstOfThree(c: Expr, t: Expr, f: Expr, maps: Maps)
      requires Scoped(StepsE(c, written) + StepsE(t, written) + StepsE(f, written))
      ensures Fold(math, c, After(StepsE(f, written), maps).locals) == Fold(math, c, maps.locals)
      ensures Fold(math, t, After(StepsE(f, written), maps).locals) == Fold(math, t, maps.locals)
    {
      var (cs, ts, fs) := (StepsE(c, written), StepsE(t, written), StepsE(f, written));
      FoldStays(math, t, written, cs, fs, maps, wasEmpty);
      ScopedParts(cs + ts, fs);
      forall j | 0 <= j < |fs|
        ensures Before(OfNode(c), fs[j])
      {
        assert (cs + ts)[|cs| - 1] == OfNode(c);
        assert Before((cs + ts)[|cs| - 1], fs[j]);
      }
      ValueStays(math, OfNode(c), fs, maps, wasEmpty);
    }

    /** Records the constants in all expressions, and returns them if there is one for each. */
    method AnalyzeAll(es: Exprs) returns (results: Option<seq<L.Const>>)
      requires Scoped(StepsEs(es, written))
      modifies this
      ensures State() == After(StepsEs(es, written), old(State()))
      ensures results == FoldAll(math, es, locals)
      decreases es, 0
    {
      results := Some([]);
      if es.MoreExprs? {
        Sequence(StepsE(es.head, written), StepsEs(es.tail, written));
        var c := Analyze(es.head);
        assert [] + StepsE(es.head, written) + StepsEs(es.tail, written) == StepsEs(es, written);
        FoldStays(math, es.head, written, [], StepsEs(es.tail, written), State(), wasEmpty);
        var cs := AnalyzeAll(es.tail);
        results := if c.Some? && cs.Some? then Some([c.value] + cs.value) else None;
      }
    }

    /** Values are matched to variables one by one; trailing variables are nil unless `rest` says they are not known. */
    method VisitLocal(vars: seq<LocalId>, values: Exprs, rest: Constant)
      requires Scoped(StepsLocal(vars, values, rest, written)) && (rest.Some? ==> rest == Some(L.CNil))
      modifies this
      ensures State() == After(StepsLocal(vars, values, rest, written), old(State()))
      decreases values, 1, |vars|
    {
      if vars == [] {
        var _ := AnalyzeAll(values);
      } else if values.MoreExprs? {
        ghost var one := [Assigned(vars[0], Of(values.head), written)];
        Sequence(StepsE(values.head, written) + one, StepsLocal(vars[1..], values.tail, rest, written));
        Sequence(StepsE(values.head, written), one);
        Single(one[0]);
        var arg := Analyze(values.head);
        RecordValue(vars[0], arg);
        VisitLocal(vars[1..], values.tail, rest);
      } else {
        ghost var one := [if rest.None? then Declared(vars[0]) else Assigned(vars[0], Missing, written)];
        Sequence(one, StepsLocal(vars[1..], values, rest, written));
        Single(one[0]);
        if rest.Some? {
          RecordValue(vars[0], Some(L.CNil));
        }
        VisitLocal(vars[1..], values, rest);
      }
    }

    /** Records the constants in a statement. */
    method Visit(s: Stat)
      requires Scoped(Steps(s, written))
      modifies this
      ensures State() == After(Steps(s, written), old(State()))
      decreases s, 2
    {
      match s {
        case LocalStat(vars, values) =>
          RestIsNil(values);
          VisitLocal(vars, values, Rest(values));
        case LocalFunction(x, fn) =>
          Sequence([Declared(x)], StepsE(fn, written));
          var _ := Analyze(fn);
        case Assign(targets, values) =>
          Sequence(StepsEs(targets, written), StepsEs(values, written));
          var _ := AnalyzeAll(targets);
          var _ := AnalyzeAll(values);
        case Compound(_, target, value) =>
          Sequence(StepsE(target, written), StepsE(value, written));
          var _ := Analyze(target);
          var _ := Analyze(value);
        case FunctionStat(name, fn) =>
          Sequence(StepsE(name, written), StepsE(fn, written));
          var _ := Analyze(name);
          var _ := Analyze(fn);
        case ExprStat(e) => var _ := Analyze(e);
        case Block(stats) => VisitAll(stats);
        case If(c, yes, no) =>
          Sequence(StepsE(c, written) + Steps(yes, written), Steps(no, written));
          Sequence(StepsE(c, written), Steps(yes, written));
          var _ := Analyze(c);
          Visit(yes);
          Visit(no);
        case While(c, body) =>
          Sequence(StepsE(c, written), Steps(body, written));
          var _ := Analyze(c);
          Visit(body);
        case Repeat(body, c) =>
          Sequence(Steps(body, written), StepsE(c, written));
          Visit(body);
          var _ := Analyze(c);
        case For(x, from, to, step, body) => VisitFor(s);
        case ForIn(vars, values, body) =>
          Sequence(StepsEs(values, written) + Declare(vars), Steps(body, written));
          Sequence(StepsEs(values, written), Declare(vars));
          var _ := AnalyzeAll(values);
          RunDeclared(math, Declare(vars), State(), wasEmpty);
          Visit(body);
        case Return(values) => var _ := AnalyzeAll(values);
        case Break =>
        case Continue =>
      }
    }

    method VisitFor(s: Stat)
      requires s.For? && Scoped(Steps(s, written))
      modifies this
      ensures State() == After(Steps(s, written), old(State()))
      decreases s, 1
    {
      ghost var head := StepsE(s.from, written) + StepsE(s.to, written) + StepsEs(s.step, written);
      Sequence(head + [Declared(s.x)], Steps(s.body, written));
      Sequence(head, [Declared(s.x)]);
      Single(Declared(s.x));
      Sequence(StepsE(s.from, written) + StepsE(s.to, written), StepsEs(s.step, written));
      Sequence(StepsE(s.from, written), StepsE(s.to, written));
      var _ := Analyze(s.from);
      var _ := Analyze(s.to);
      var _ := AnalyzeAll(s.step);
      Visit(s.body);
    }

    method VisitAll(ss: Stats)
      requires Scoped(StepsList(ss, written))
      modifies this
      ensures State() == After(StepsList(ss, written), old(State()))
      decreases ss, 0
    {
      if ss.MoreStats? {
        Sequence(Steps(ss.head, written), StepsList(ss.tail, written));
        Visit(ss.head);
        VisitAll(ss.tail);
      }
    }
  }

  lemma {:induction false} RunDeclared(m: Math, steps: seq<Step>, maps: Maps, wasEmpty: bool)
    requires forall s <- steps :: s.Declared?
    ensures RunSteps(m, steps, maps, wasEmpty) == maps
    decreases |steps|
  {
    if steps != [] {
      assert steps[0] in steps;
      RunDeclared(m, steps[1..], maps, wasEmpty);
    }
  }

  // ----- both passes together -----

  ghost predicate NotRecorded(steps: seq<Step>, x: LocalId) {
    forall s <- steps :: s.OfLocal? ==> s.x != x
  }

  lemma {:induction false} UnrecordedStays(m: Math, steps: seq<Step>, maps: Maps, wasEmpty: bool, x: LocalId)
    requires NotRecorded(steps, x)
    ensures Get(RunSteps(m, steps, maps, wasEmpty).locals, x) == Get(maps.locals, x)
    decreases |steps|
  {
    if steps != [] {
      assert steps[0] in steps;
      assert forall s <- steps[1..] :: s in steps;
      UnrecordedStays(m, steps[1..], RunStep(m, steps[0], maps, wasEmpty), wasEmpty, x);
    }
  }

  /** The maps that the two passes over a whole program leave. */
  function Folded(m: Math, program: Stat): Maps {
    RunSteps(m, Steps(program, Written(program)), Maps(map[], map[]), true)
  }

  lemma FoldedFits(m: Math, program: Stat)
    requires Scoped(Steps(program, Written(program)))
    ensures
      var maps := Folded(m, program);
      && AllFit(m, Steps(program, Written(program)), maps)
      && Fits(m, program, maps.constants, maps.locals, Written(program), true)
      && forall x <- Written(program) :: Get(maps.locals, x) == None
  {
    var w := Written(program);
    PassFits(m, Steps(program, w), Maps(map[], map[]), true);
    FitsFromSteps(m, program, Folded(m, program), w);
    forall x <- w
      ensures Get(Folded(m, program).locals, x) == None
    {
      UnrecordedStays(m, Steps(program, w), Maps(map[], map[]), true, x);
    }
  }

  /**
   Folding is sound: in every run of the program, whatever the host does and however far the run gets, every value that
   an expression takes is the constant recorded for it, if there is one.
   */
  lemma FoldingIsSound(h: Host, program: Stat, fuel: nat)
    requires Scoped(Steps(program, Written(program)))
    ensures
      var ks := Folded(h.math, program).constants;
      var log := Exec(h, program, map[], State([], [], []), true, fuel).st.log;
      forall i :: 0 <= i < |log| && log[i].Node? && Get(ks, log[i].id).Some? ==> log[i].v == Prim(Get(ks, log[i].id).value)
  {
    var maps := Folded(h.math, program);
    var w := Written(program);
    FoldedFits(h.math, program);
    Shallow(h.math, program, maps.constants, maps.locals, w);
    var c := Ctx(h, w, maps.constants, maps.locals, maps.constants, maps.locals, 0);
    SoundExec(c, program, map[], State([], [], []), true, fuel);
    var log := Exec(h, program, map[], State([], [], []), true, fuel).st.log;
    forall i | 0 <= i < |log| && log[i].Node? && Get(maps.constants, log[i].id).Some?
      ensures log[i].v == Prim(Get(maps.constants, log[i].id).value)
    {
      assert GoodEvent(c, log[i]);
    }
  }
}
