/**
 A loop whose body writes a local and tests it, and the code of its two copies: the first one is straight-line code, the
 second one has only the test that is left. The code shows the call, and what the local holds only by having written it.

   for x = 0, 1 do if x == 0 then w = true elseif w then c() end end
 */
module UnrolledExample {
  import opened Results
  import L = LuaSource
  import opened FoldSource
  import opened FoldUnroll
  import opened UnrolledLoop
  import J = UnrollJumps

  const ZERO: L.Number := L.Integral(0)
  const ONE: L.Number := L.Integral(1)
  const TRUE: L.Const := L.CBool(true)

  function IsZeroTest(x: LocalId): Expr {
    Binary(1, L.Compare(L.Eq), LocalRef(2, x), Literal(3, L.CNumber(ZERO)))
  }

  function Write(w: LocalId): Stat {
    Assign(MoreExprs(LocalRef(4, w), NoExprs), MoreExprs(Literal(5, TRUE), NoExprs))
  }

  function CallC(): Expr {
    Call(7, Global(8, "c"), NoExprs)
  }

  function Test(w: LocalId): Stat {
    If(LocalRef(6, w), ExprStat(CallC()), Block(NoStats))
  }

  function Body(x: LocalId, w: LocalId): Stat {
    If(IsZeroTest(x), Write(w), Test(w))
  }

  // ----- the code of the copies -----

  const WRITES: nat := 1
  const CALLS: nat := 2

  const FIRST: J.Fragment := J.Fragment([J.Act(1)], [])
  const SECOND: J.Fragment := J.Fragment([J.Branch(0, 1), J.Jump(1), J.Act(2)], [])

  /** The branch is taken once the local has been written. */
  function Branches(): J.Oracle {
    (trace: J.Trace, n: nat) => WRITES in trace
  }

  const ASK: Event := Asked([Prim(L.CString("c"))])

  /** The local holds whether it was written, and the call shows in the trace exactly if it was made. */
  function Shows(env: Env, w: LocalId): Relation {
    (st: State, trace: J.Trace) =>
      && (forall y <- env :: env[y] < |st.cells|)
      && w in env && st.cells[env[w]].value == Prim(L.CBool(WRITES in trace))
      && st.closures == [] && (ASK in st.log <==> CALLS in trace)
  }

  // ----- evaluation without the host -----

  ghost predicate Quiet(st: State, st': State) {
    st'.cells == st.cells && st'.closures == st.closures && (ASK in st'.log <==> ASK in st.log)
  }

  lemma LoggedIsQuiet(st: State, r: Res, direct: bool, id: NodeId)
    requires Quiet(st, r.st)
    ensures Quiet(st, Logged(One(r), direct, id).st)
  {
  }

  lemma QuietLocal(h: Host, e: Expr, env: Env, st: State, direct: bool, fuel: nat)
    requires e.LocalRef? && e.x in env && env[e.x] < |st.cells|
    ensures
      var r := Eval(h, e, env, st, direct, fuel);
      r.Done? && r.vals == [st.cells[env[e.x]].value] && Quiet(st, r.st)
  {
    LoggedIsQuiet(st, EvalRaw(h, e, env, st, direct, fuel), direct, e.id);
  }

  lemma QuietLiteral(h: Host, e: Expr, env: Env, st: State, direct: bool, fuel: nat)
    requires e.Literal?
    ensures
      var r := Eval(h, e, env, st, direct, fuel);
      r.Done? && r.vals == [Prim(e.c)] && Quiet(st, r.st)
  {
    LoggedIsQuiet(st, EvalRaw(h, e, env, st, direct, fuel), direct, e.id);
  }

  lemma QuietTest(h: Host, x: LocalId, i: L.Number, env: Env, st: State, direct: bool, fuel: nat)
    requires x in env && env[x] < |st.cells| && st.cells[env[x]].value == Prim(L.CNumber(i))
    ensures
      var r := Eval(h, IsZeroTest(x), env, st, direct, fuel);
      r.Done? && r.vals == [Prim(L.CBool(L.NumberEq(i, ZERO)))] && Quiet(st, r.st)
  {
    var e := IsZeroTest(x);
    QuietLocal(h, e.left, env, st, direct, fuel);
    var a := Eval(h, e.left, env, st, direct, fuel);
    QuietLiteral(h, e.right, env, a.st, direct, fuel);
    LoggedIsQuiet(st, EvalRaw(h, e, env, st, direct, fuel), direct, e.id);
  }

  // ----- the statements -----

  lemma WriteExecutes(h: Host, w: LocalId, env: Env, st: State, direct: bool, fuel: nat)
    requires w in env && env[w] < |st.cells|
    ensures
      var r := Exec(h, Write(w), env, st, direct, fuel);
      && r.Next? && r.st.cells == st.cells[env[w] := st.cells[env[w]].(value := Prim(TRUE))]
      && r.st.closures == st.closures && (ASK in r.st.log <==> ASK in st.log)
  {
    var s := Write(w);
    var t, v := s.targets.head, s.values.head;
    assert EvalPlace(h, t, env, st, direct, fuel) == Done([], st);
    assert EvalTargets(h, s.targets.tail, env, st, direct, fuel) == Done([], st);
    assert EvalTargets(h, s.targets, env, st, direct, fuel) == Done([], st);
    QuietLiteral(h, v, env, st, direct, fuel);
    OneIsListed(h, v, s.values, Prim(TRUE), env, st, direct, fuel);
    var b := EvalList(h, s.values, env, st, direct, fuel);
    assert b.st == Eval(h, v, env, st, direct, fuel).st;
    assert Store(h, s.targets.tail, [], [], env, StoreOne(h, t, [], Prim(TRUE), env, b.st, fuel).st, fuel).Done?;
  }

  /** Without closures of the program a call does nothing but ask, or it does not return. */
  lemma CallAsks(h: Host, env: Env, st: State, direct: bool, fuel: nat)
    requires st.closures == [] && CallC().id !in h.math.builtins
    ensures
      var r := Eval(h, CallC(), env, st, direct, fuel);
      r.Done? ==> r.st.cells == st.cells && r.st.closures == [] && ASK in r.st.log
  {
    var e := CallC();
    GlobalAsks(h, e.fn, env, st, direct, fuel);
    var f := Eval(h, e.fn, env, st, direct, fuel);
    assert EvalRaw(h, e, env, st, direct, fuel) == EvalCall(h, e, env, st, direct, fuel);
    if f.Done? {
      assert EvalList(h, e.args, env, f.st, direct, fuel) == Done([], f.st);
      ApplyAsks(h, f.vals[0], f.st, fuel);
      assert EvalCall(h, e, env, st, direct, fuel) == Apply(h, f.vals[0], [], f.st, fuel);
    } else {
      assert EvalCall(h, e, env, st, direct, fuel) == f;
    }
  }

  lemma HostAsks(h: Host, operands: seq<Value>, st: State, fuel: nat)
    requires st.closures == []
    ensures
      var r := HostCall(h, operands, st, fuel);
      r.Done? ==> r.st == st.(log := st.log + [Asked(operands)])
  {
  }

  lemma ApplyAsks(h: Host, f: Value, st: State, fuel: nat)
    requires st.closures == []
    ensures
      var r := Apply(h, f, [], st, fuel);
      r.Done? ==> r.st.cells == st.cells && r.st.closures == [] && (ASK in st.log ==> ASK in r.st.log)
  {
    HostAsks(h, [f], st, fuel);
    assert [f] + [] == [f];
  }

  lemma GlobalAsks(h: Host, e: Expr, env: Env, st: State, direct: bool, fuel: nat)
    requires st.closures == [] && e.Global? && e.name == "c"
    ensures
      var r := Eval(h, e, env, st, direct, fuel);
      r.Done? ==> r.st.cells == st.cells && r.st.closures == [] && ASK in r.st.log
  {
    HostAsks(h, [Prim(L.CString(e.name))], st, fuel);
  }

  // ----- the copies are compiled -----

  lemma FirstRuns(trace: J.Trace)
    ensures Ends(Branches(), FIRST, trace, J.FellOut(trace + [WRITES]))
  {
    var end := J.At(1, trace + [WRITES]);
    assert J.Step(Branches(), FIRST.code, J.At(0, trace)) == end;
    assert J.BodyRun(Branches(), FIRST, end, 0) == Some(J.FellOut(trace + [WRITES]));
    assert J.BodyRun(Branches(), FIRST, J.At(0, trace), 1) == Some(J.FellOut(trace + [WRITES]));
  }

  function AfterSecond(trace: J.Trace): J.Trace {
    if WRITES in trace then (trace + [0]) + [CALLS] else trace + [0]
  }

  lemma SecondRuns(trace: J.Trace)
    ensures Ends(Branches(), SECOND, trace, J.FellOut(AfterSecond(trace)))
  {
    var o, last := Branches(), AfterSecond(trace);
    var mid := J.At(if WRITES in trace then 2 else 1, trace + [0]);
    assert J.Step(o, SECOND.code, J.At(0, trace)) == mid;
    assert J.Step(o, SECOND.code, mid) == J.At(3, last);
    assert J.BodyRun(o, SECOND, J.At(3, last), 0) == Some(J.FellOut(last));
    assert J.BodyRun(o, SECOND, mid, 1) == Some(J.FellOut(last));
    assert J.BodyRun(o, SECOND, J.At(0, trace), 2) == Some(J.FellOut(last));
  }

  lemma FirstCompiled(h: Host, x: LocalId, w: LocalId, env: Env, st: State, trace: J.Trace, direct: bool, fuel: nat)
    requires x != w && Shows(env, w)(st, trace)
    ensures EndsAs(Branches(), FIRST, trace, Round(h, x, ZERO, Body(x, w), env, st, direct, fuel), Shows(env, w))
  {
    var v := Prim(L.CNumber(ZERO));
    BindOne(x, v, env, st);
    var (env', st') := Bind([x], [v], env, st);
    QuietTest(h, x, ZERO, env', st', direct, fuel);
    var a := Eval(h, IsZeroTest(x), env', st', direct, fuel);
    WriteExecutes(h, w, env', a.st, direct, fuel);
    var r := Exec(h, Write(w), env', a.st, direct, fuel);
    assert Exec(h, Body(x, w), env', st', direct, fuel) == r;
    FirstRuns(trace);
    assert Shows(env, w)(r.st, trace + [WRITES]);
    assert ExitsAs(r, J.FellOut(trace + [WRITES]), Shows(env, w));
  }

  lemma TestExecutes(h: Host, w: LocalId, b: bool, env: Env, st: State, direct: bool, fuel: nat)
    requires w in env && env[w] < |st.cells| && st.cells[env[w]].value == Prim(L.CBool(b))
    requires st.closures == [] && CallC().id !in h.math.builtins
    ensures
      var r := Exec(h, Test(w), env, st, direct, fuel);
      r.Stopped? || (&& r.Next? && r.st.cells == st.cells && r.st.closures == [] && (ASK in r.st.log <==> b || ASK in st.log))
  {
    var s := Test(w);
    QuietLocal(h, s.cond, env, st, direct, fuel);
    var a := Eval(h, s.cond, env, st, direct, fuel);
    if b {
      CallAsks(h, env, a.st, direct, fuel);
    } else {
      assert ExecList(h, NoStats, env, a.st, direct, fuel) == Next(env, a.st);
    }
  }

  /** In the second round only the test is left. */
  lemma SecondExecutes(h: Host, x: LocalId, w: LocalId, b: bool, env: Env, st: State, direct: bool, fuel: nat)
    requires x in env && env[x] < |st.cells| && st.cells[env[x]].value == Prim(L.CNumber(ONE))
    requires w in env && env[w] < |st.cells| && st.cells[env[w]].value == Prim(L.CBool(b))
    requires st.closures == [] && CallC().id !in h.math.builtins
    ensures
      var r := Exec(h, Body(x, w), env, st, direct, fuel);
      r.Stopped? || (&& r.Next? && r.st.cells == st.cells && r.st.closures == [] && (ASK in r.st.log <==> b || ASK in st.log))
  {
    QuietTest(h, x, ONE, env, st, direct, fuel);
    var a := Eval(h, IsZeroTest(x), env, st, direct, fuel);
    TestExecutes(h, w, b, env, a.st, direct, fuel);
    assert Exec(h, Body(x, w), env, st, direct, fuel) == Exec(h, Test(w), env, a.st, direct, fuel);
  }

  lemma SecondRound(h: Host, x: LocalId, w: LocalId, env: Env, st: State, trace: J.Trace, direct: bool, fuel: nat)
    requires x != w && Shows(env, w)(st, trace) && CallC().id !in h.math.builtins
    ensures
      var r := Round(h, x, ONE, Body(x, w), env, st, direct, fuel);
      r.Stopped? || (r.Next? && Shows(env, w)(r.st, AfterSecond(trace)))
  {
    var v := Prim(L.CNumber(ONE));
    BindOne(x, v, env, st);
    var (env', st') := Bind([x], [v], env, st);
    SecondExecutes(h, x, w, WRITES in trace, env', st', direct, fuel);
  }

  lemma SecondCompiled(h: Host, x: LocalId, w: LocalId, env: Env, st: State, trace: J.Trace, direct: bool, fuel: nat)
    requires x != w && Shows(env, w)(st, trace) && CallC().id !in h.math.builtins
    ensures
      var r := Round(h, x, ONE, Body(x, w), env, st, direct, fuel);
      r.Stopped? || EndsAs(Branches(), SECOND, trace, r, Shows(env, w))
  {
    var r := Round(h, x, ONE, Body(x, w), env, st, direct, fuel);
    SecondRound(h, x, w, env, st, trace, direct, fuel);
    SecondRuns(trace);
    assert r.Next? ==> ExitsAs(r, J.FellOut(AfterSecond(trace)), Shows(env, w));
  }

  /** So the two fragments are what the theorem about patched code asks for, whatever the host. */
  lemma CopiesCompiled(h: Host, x: LocalId, w: LocalId, env: Env, direct: bool)
    requires ExactOnIntegers(h.math) && x != w && CallC().id !in h.math.builtins
    ensures GetTripCount(ZERO, ONE, ONE) == 2
    ensures AllCompiled(Branches(), [FIRST, SECOND], Shows(env, w), h, x, ZERO, ONE, Body(x, w), env, direct)
  {
    assert CopyValue(h.math, ZERO, ONE, 0) == ZERO && CopyValue(h.math, ZERO, ONE, 1) == ONE;
    assert Compiled(Branches(), FIRST, Shows(env, w), h, x, ZERO, Body(x, w), env, direct) by {
      forall st: State, trace: J.Trace, fuel: nat | Shows(env, w)(st, trace)
        ensures EndsAs(Branches(), FIRST, trace, Round(h, x, ZERO, Body(x, w), env, st, direct, fuel), Shows(env, w))
      {
        FirstCompiled(h, x, w, env, st, trace, direct, fuel);
      }
    }
    assert Compiled(Branches(), SECOND, Shows(env, w), h, x, ONE, Body(x, w), env, direct) by {
      forall st: State, trace: J.Trace, fuel: nat | Shows(env, w)(st, trace)
        ensures
          var r := Round(h, x, ONE, Body(x, w), env, st, direct, fuel);
          r.Stopped? || EndsAs(Branches(), SECOND, trace, r, Shows(env, w))
      {
        SecondCompiled(h, x, w, env, st, trace, direct, fuel);
      }
    }
  }
}
