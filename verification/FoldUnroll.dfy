/**
 Unrolling a numeric loop: one copy of the body for each round, folded with the value that the loop variable has
 in that round. The copies are the loop, every constant in them is right, and afterwards the maps are as before.
 */
module FoldUnroll {
  import opened Results
  import L = LuaSource
  import opened FoldSource
  import opened FoldSpec
  import opened FoldProof

  // ----- how often a loop runs -----

  const LIMIT := 32767

  /** A number as a small integer; negative zero is zero. */
  function AsInt(n: L.Number): Option<int> {
    match n
    case Integral(v) => if -LIMIT <= v <= LIMIT then Some(v) else None
    case NegativeZero => Some(0)
    case _ => None
  }

  /** Division that truncates, as in C. */
  function Quotient(a: int, b: int): int
    requires b != 0
  {
    if (a >= 0) == (b > 0) then Abs(a) / Abs(b) else -(Abs(a) / Abs(b))
  }

  function Abs(a: int): nat {
    if a < 0 then -a else a
  }

  function GetTripCount(from: L.Number, to: L.Number, step: L.Number): int {
    var f, t, s := AsInt(from), AsInt(to), AsInt(step);
    if f.None? || t.None? || s.None? || s.value == 0 then -1
    else if (s.value < 0 && t.value > f.value) || (s.value > 0 && t.value < f.value) then 0
    else Quotient(t.value - f.value, s.value) + 1
  }

  lemma QuotientSign(a: int, b: int)
    requires b != 0 && (a == 0 || (a > 0 <==> b > 0))
    ensures Quotient(a, b) >= 0
  {
    NatQuotient(Abs(a), Abs(b));
  }

  lemma NatQuotient(x: nat, y: nat)
    requires y > 0
    ensures x / y >= 0 && (x == 0 ==> x / y == 0)
  {
    assert x == y * (x / y) + x % y;
    if x / y < 0 {
      MulMono(x / y, -1, y);
    } else if x / y > 0 {
      MulMono(1, x / y, y);
    }
  }

  predicate IsSmallInteger(n: L.Number) {
    n == L.NegativeZero || (n.Integral? && -32767 <= n.value <= 32767)
  }

  /** There is a count exactly for small integers, the step not zero; then it is the number of steps up to the limit. */
  lemma WhenCounted(from: L.Number, to: L.Number, step: L.Number)
    ensures GetTripCount(from, to, step) >= -1
    ensures
      GetTripCount(from, to, step) >= 0
      <==> IsSmallInteger(from) && IsSmallInteger(to) && IsSmallInteger(step) && !L.IsZero(step)
  {
    var f, t, s := AsInt(from), AsInt(to), AsInt(step);
    if f.Some? && t.Some? && s.Some? && s.value != 0 && IntWithin(f.value, t.value, s.value) {
      QuotientSign(t.value - f.value, s.value);
    }
  }

  const EXACT := 0x1_0000_0000

  /** What IEEE 754 arithmetic gives on integers that are small enough, signed zeros included. */
  ghost predicate ExactOnIntegers(m: Math) {
    && (forall a, b {:trigger m.arith(L.Add, L.Integral(a), L.Integral(b))} ::
          -EXACT <= a <= EXACT && -EXACT <= b <= EXACT ==> m.arith(L.Add, L.Integral(a), L.Integral(b)) == L.Integral(a + b))
    && (forall a {:trigger m.arith(L.Add, L.Integral(a), L.NegativeZero)} ::
          -EXACT <= a <= EXACT ==> m.arith(L.Add, L.Integral(a), L.NegativeZero) == L.Integral(a))
    && (forall a {:trigger m.arith(L.Add, L.NegativeZero, L.Integral(a))} ::
          -EXACT <= a <= EXACT ==> m.arith(L.Add, L.NegativeZero, L.Integral(a)) == L.Integral(a))
    && m.arith(L.Add, L.NegativeZero, L.NegativeZero) == L.NegativeZero
    && (forall a, b {:trigger m.arith(L.Mul, L.Integral(a), L.Integral(b))} ::
          -EXACT <= a * b <= EXACT ==>
            m.arith(L.Mul, L.Integral(a), L.Integral(b)) ==
            if a * b == 0 && (a < 0 || b < 0) then L.NegativeZero else L.Integral(a * b))
    && (forall x, y {:trigger m.lt(x, y)} :: Small(x) && Small(y) ==> (m.lt(x, y) <==> ToInt(x) < ToInt(y)))
    && (forall x, y {:trigger m.le(x, y)} :: Small(x) && Small(y) ==> (m.le(x, y) <==> ToInt(x) <= ToInt(y)))
  }

  predicate Small(x: L.Number) {
    x.NegativeZero? || (x.Integral? && -EXACT <= x.value <= EXACT)
  }

  function ToInt(x: L.Number): int
    requires Small(x)
  {
    if x.Integral? then x.value else 0
  }

  /** The value folded into copy `iv`. */
  function CopyValue(m: Math, from: L.Number, step: L.Number, iv: nat): L.Number {
    m.arith(L.Add, from, m.arith(L.Mul, L.Integral(iv), step))
  }

  /** The value the running loop has in round `iv`, by repeated addition. */
  function RoundValue(m: Math, from: L.Number, step: L.Number, iv: nat): L.Number {
    if iv == 0 then from else m.arith(L.Add, RoundValue(m, from, step, iv - 1), step)
  }

  lemma MulMono(a: int, b: int, y: nat)
    requires a <= b
    ensures a * y <= b * y
  {
    assert (b - a) * y >= 0;
  }

  lemma DivBound(x: nat, y: nat, k: nat)
    requires y > 0
    ensures k <= x / y <==> k * y <= x
  {
    var q := x / y;
    assert x == y * q + x % y;
    if k <= q {
      MulMono(k, q, y);
    } else {
      MulMono(q + 1, k, y);
    }
  }

  function IntTrips(f: int, t: int, s: int): nat
    requires s != 0
  {
    if (s < 0 && t > f) || (s > 0 && t < f) then 0 else Abs(t - f) / Abs(s) + 1
  }

  predicate IntWithin(i: int, t: int, s: int) {
    if s > 0 then i <= t else t <= i
  }

  /** The count is exactly the number of rounds that stay within the limit. */
  lemma IntRounds(f: int, t: int, s: int, iv: nat)
    requires s != 0 && iv <= IntTrips(f, t, s)
    ensures IntWithin(f + iv * s, t, s) <==> iv < IntTrips(f, t, s)
    ensures iv < IntTrips(f, t, s) ==> Abs(f + iv * s) <= Abs(f) || Abs(f + iv * s) <= Abs(t)
  {
    if IntTrips(f, t, s) > 0 {
      DivBound(Abs(t - f), Abs(s), iv);
      assert iv * Abs(s) == Abs(iv * s);
    } else {
      assert iv * s == 0;
    }
  }

  lemma TripCountIsIntTrips(from: L.Number, to: L.Number, step: L.Number)
    requires GetTripCount(from, to, step) >= 0
    ensures
      var f, t, s := AsInt(from), AsInt(to), AsInt(step);
      f.Some? && t.Some? && s.Some? && s.value != 0 && GetTripCount(from, to, step) == IntTrips(f.value, t.value, s.value)
  {
  }

  lemma {:induction false} RoundsAreExact(m: Math, from: L.Number, to: L.Number, step: L.Number, f: int, t: int, s: int, iv: nat)
    requires ExactOnIntegers(m) && AsInt(from) == Some(f) && AsInt(to) == Some(t) && AsInt(step) == Some(s) && s != 0
    requires iv <= IntTrips(f, t, s)
    ensures -2 * LIMIT <= f + iv * s <= 2 * LIMIT
    ensures RoundValue(m, from, step, iv) == if iv == 0 then from else L.Integral(f + iv * s)
    decreases iv
  {
    if iv > 0 {
      RoundsAreExact(m, from, to, step, f, t, s, iv - 1);
      IntRounds(f, t, s, iv - 1);
      var before := f + (iv - 1) * s;
      assert before + s == f + iv * s;
      assert step == L.Integral(s);
    }
  }

  /** The rounds of a loop with a trip count are exact integers, and the count is exactly the number of rounds. */
  lemma TripCountIsExact(m: Math, from: L.Number, to: L.Number, step: L.Number, iv: nat)
    requires ExactOnIntegers(m) && 0 <= iv <= GetTripCount(from, to, step)
    ensures AsInt(from).Some? && AsInt(step).Some?
    ensures
      var f, s := AsInt(from).value, AsInt(step).value;
      var i := RoundValue(m, from, step, iv);
      && i == (if iv == 0 then from else L.Integral(f + iv * s))
      && -2 * LIMIT <= f + iv * s <= 2 * LIMIT
      && (Within(m, i, to, step) <==> iv < GetTripCount(from, to, step))
  {
    TripCountIsIntTrips(from, to, step);
    var f, t, s := AsInt(from).value, AsInt(to).value, AsInt(step).value;
    RoundsAreExact(m, from, to, step, f, t, s, iv);
    IntRounds(f, t, s, iv);
    WithinIsIntWithin(m, RoundValue(m, from, step, iv), to, step, f + iv * s);
  }

  lemma WithinIsIntWithin(m: Math, i: L.Number, to: L.Number, step: L.Number, v: int)
    requires ExactOnIntegers(m) && Small(i) && ToInt(i) == v && AsInt(to).Some? && AsInt(step).Some? && AsInt(step).value != 0
    ensures Within(m, i, to, step) <==> IntWithin(v, AsInt(to).value, AsInt(step).value)
  {
    assert m.lt(L.Integral(0), step) <==> 0 < ToInt(step);
  }

  /**
   The value folded into a copy is the one the loop has in that round, signed zeros included, save in one case: a loop
   that starts at negative zero and counts up starts at positive zero once it is unrolled.
   */
  lemma CopyValueIsRound(m: Math, from: L.Number, to: L.Number, step: L.Number, iv: nat)
    requires ExactOnIntegers(m) && 0 <= iv < GetTripCount(from, to, step)
    ensures AsInt(step).Some?
    ensures CopyValue(m, from, step, iv) == RoundValue(m, from, step, iv) <==>
            !(from.NegativeZero? && iv == 0 && AsInt(step).value > 0)
  {
    TripCountIsIntTrips(from, to, step);
    var f, s := AsInt(from).value, AsInt(step).value;
    TripCountIsExact(m, from, to, step, iv);
    assert iv > 0 ==> iv * s != 0;
    assert step == L.Integral(s);
    assert -EXACT <= iv * s <= EXACT;
  }

  // ----- the copies are the loop -----

  /** The copies one after the other; a break leaves all of them, a continue only its own. */
  function Unrolled(h: Host, x: LocalId, from: L.Number, step: L.Number, n: nat, iv: nat, body: Stat,
                    env: Env, st: State, direct: bool, fuel: nat): (r: Flow)
    decreases fuel
  {
    if iv >= n then Next(env, st) else
      var (env', st') := Bind([x], [Prim(L.CNumber(CopyValue(h.math, from, step, iv)))], env, st);
      match Exec(h, body, env', st', direct, fuel)
      case Broke(st'') => Next(env, st'')
      case Returned(vals, st'') => Returned(vals, st'')
      case Stopped(st'') => Stopped(st'')
      case Next(_, st'') =>
        if fuel == 0 then Stopped(st'') else Unrolled(h, x, from, step, n, iv + 1, body, env, st'', direct, fuel - 1)
      case Continued(_, st'') =>
        if fuel == 0 then Stopped(st'') else Unrolled(h, x, from, step, n, iv + 1, body, env, st'', direct, fuel - 1)
  }

  lemma CopyRound(h: Host, x: LocalId, from: L.Number, step: L.Number, n: nat, iv: nat, body: Stat, env: Env, st: State, direct: bool,
                  fuel: nat, r: Flow, rest: Flow)
    requires iv < n && r == Round(h, x, CopyValue(h.math, from, step, iv), body, env, st, direct, fuel)
    requires GoesOn(r, fuel) ==> rest == Unrolled(h, x, from, step, n, iv + 1, body, env, r.st, direct, fuel - 1)
    ensures Unrolled(h, x, from, step, n, iv, body, env, st, direct, fuel) == RoundEnd(r, env, fuel, rest)
  {
  }

  /** Unrolling preserves the loop: same effects, same results, same breaks, whatever the body and the host do. */
  lemma {:induction false} UnrolledIsLoop(h: Host, x: LocalId, from: L.Number, to: L.Number, step: L.Number, iv: nat, body: Stat,
                                          env: Env, st: State, direct: bool, fuel: nat)
    requires ExactOnIntegers(h.math) && 0 <= iv <= GetTripCount(from, to, step)
    requires AsInt(step).Some? && !(from.NegativeZero? && AsInt(step).value > 0 && GetTripCount(from, to, step) > 0)
    ensures
      Unrolled(h, x, from, step, GetTripCount(from, to, step), iv, body, env, st, direct, fuel) ==
      ForLoop(h, x, RoundValue(h.math, from, step, iv), to, step, body, env, st, direct, fuel)
    decreases fuel
  {
    var n := GetTripCount(from, to, step);
    var i := RoundValue(h.math, from, step, iv);
    RoundFacts(h.math, from, to, step, iv);
    if iv < n {
      var r := Round(h, x, i, body, env, st, direct, fuel);
      var rest := r;
      if GoesOn(r, fuel) {
        UnrolledIsLoop(h, x, from, to, step, iv + 1, body, env, r.st, direct, fuel - 1);
        rest := Unrolled(h, x, from, step, n, iv + 1, body, env, r.st, direct, fuel - 1);
      }
      LoopRound(h, x, i, to, step, body, env, st, direct, fuel, r, rest);
      CopyRound(h, x, from, step, n, iv, body, env, st, direct, fuel, r, rest);
    }
  }

  // ----- a loop from negative zero upwards -----

  function ReturnOf(x: LocalId): Stat {
    Return(MoreExprs(LocalRef(0, x), NoExprs))
  }

  lemma BindOne(x: LocalId, v: Value, env: Env, st: State)
    ensures Bind([x], [v], env, st) == (env[x := |st.cells|], st.(cells := st.cells + [Cell(x, v)]))
  {
    assert [x][1..] == [] && [v][1..] == [];
  }

  lemma LocalIsRead(h: Host, e: Expr, v: Value, env: Env, st: State, direct: bool, fuel: nat)
    requires e.LocalRef? && e.x in env && env[e.x] < |st.cells| && st.cells[env[e.x]].value == v
    ensures Eval(h, e, env, st, direct, fuel).Done? && Eval(h, e, env, st, direct, fuel).vals == [v]
  {
    assert EvalRaw(h, e, env, st, direct, fuel) == Done([v], st);
  }

  lemma OneIsListed(h: Host, e: Expr, es: Exprs, v: Value, env: Env, st: State, direct: bool, fuel: nat)
    requires es == MoreExprs(e, NoExprs) && !IsMulti(e)
    requires Eval(h, e, env, st, direct, fuel).Done? && Eval(h, e, env, st, direct, fuel).vals == [v]
    ensures EvalList(h, es, env, st, direct, fuel).Done? && EvalList(h, es, env, st, direct, fuel).vals == [v]
  {
    var a := Eval(h, e, env, st, direct, fuel);
    assert EvalList(h, NoExprs, env, a.st, direct, fuel) == Done([], a.st);
    assert [v] + [] == [v];
  }

  lemma RoundReturns(h: Host, x: LocalId, i: L.Number, env: Env, st: State, direct: bool, fuel: nat)
    ensures
      var r := Round(h, x, i, ReturnOf(x), env, st, direct, fuel);
      r.Returned? && r.vals == [Prim(L.CNumber(i))]
  {
    var v, e := Prim(L.CNumber(i)), LocalRef(0, x);
    BindOne(x, v, env, st);
    var (env', st') := Bind([x], [v], env, st);
    LocalIsRead(h, e, v, env', st', direct, fuel);
    OneIsListed(h, e, MoreExprs(e, NoExprs), v, env', st', direct, fuel);
  }

  /** What the loop returns from its first round, and what its first copy returns. */
  lemma FirstReturns(h: Host, x: LocalId, from: L.Number, to: L.Number, step: L.Number, env: Env, st: State, direct: bool, fuel: nat)
    requires ExactOnIntegers(h.math) && 0 < GetTripCount(from, to, step)
    ensures ForLoop(h, x, from, to, step, ReturnOf(x), env, st, direct, fuel).Returned?
    ensures ForLoop(h, x, from, to, step, ReturnOf(x), env, st, direct, fuel).vals == [Prim(L.CNumber(from))]
    ensures Unrolled(h, x, from, step, GetTripCount(from, to, step), 0, ReturnOf(x), env, st, direct, fuel).Returned?
    ensures Unrolled(h, x, from, step, GetTripCount(from, to, step), 0, ReturnOf(x), env, st, direct, fuel).vals ==
            [Prim(L.CNumber(CopyValue(h.math, from, step, 0)))]
  {
    var n, first := GetTripCount(from, to, step), CopyValue(h.math, from, step, 0);
    TripCountIsExact(h.math, from, to, step, 0);
    RoundReturns(h, x, from, env, st, direct, fuel);
    RoundReturns(h, x, first, env, st, direct, fuel);
    var r := Round(h, x, from, ReturnOf(x), env, st, direct, fuel);
    var c := Round(h, x, first, ReturnOf(x), env, st, direct, fuel);
    LoopRound(h, x, from, to, step, ReturnOf(x), env, st, direct, fuel, r, r);
    CopyRound(h, x, from, step, n, 0, ReturnOf(x), env, st, direct, fuel, c, c);
  }

  /** `for i = -0, 1 do return i end` returns negative zero; its copies return positive zero. */
  lemma NegativeZeroIsLost(h: Host, x: LocalId, env: Env, st: State, direct: bool, fuel: nat)
    requires ExactOnIntegers(h.math)
    ensures
      var from, to, step := L.NegativeZero, L.Integral(1), L.Integral(1);
      var loop := ForLoop(h, x, from, to, step, ReturnOf(x), env, st, direct, fuel);
      var copies := Unrolled(h, x, from, step, 2, 0, ReturnOf(x), env, st, direct, fuel);
      && GetTripCount(from, to, step) == 2
      && loop.Returned? && loop.vals == [Prim(L.CNumber(L.NegativeZero))]
      && copies.Returned? && copies.vals == [Prim(L.CNumber(L.Integral(0)))]
  {
    FirstReturns(h, x, L.NegativeZero, L.Integral(1), L.Integral(1), env, st, direct, fuel);
    assert CopyValue(h.math, L.NegativeZero, L.Integral(1), 0) == L.Integral(0);
  }

  ghost predicate Unrolls(h: Host, from: L.Number, to: L.Number, step: L.Number, n: nat, body: Stat, x: LocalId, env: Env, st: State,
                          direct: bool, fuel: nat)
  {
    Unrolled(h, x, from, step, n, 0, body, env, st, direct, fuel) == ForLoop(h, x, from, to, step, body, env, st, direct, fuel)
  }

  /** The copies do what the loop does, for every body and host, exactly if the loop does not count up from negative zero. */
  lemma UnrollsExactly(m: Math, from: L.Number, to: L.Number, step: L.Number, n: nat)
    requires ExactOnIntegers(m) && n == GetTripCount(from, to, step)
    ensures AsInt(step).Some?
    ensures
      (forall h: Host, body: Stat, x: LocalId, env: Env, st: State, direct: bool, fuel: nat | h.math == m ::
         Unrolls(h, from, to, step, n, body, x, env, st, direct, fuel))
      <==> !(from.NegativeZero? && AsInt(step).value > 0 && n > 0)
  {
    TripCountIsIntTrips(from, to, step);
    if from.NegativeZero? && AsInt(step).value > 0 && n > 0 {
      var h, st := Host(m, (_: seq<Event>) => Raise), State([], [], []);
      FirstReturns(h, 0, from, to, step, map[], st, true, 0);
      CopyValueIsRound(m, from, to, step, 0);
      assert !Unrolls(h, from, to, step, n, ReturnOf(0), 0, map[], st, true, 0);
    } else {
      forall h: Host, body: Stat, x: LocalId, env: Env, st: State, direct: bool, fuel: nat | h.math == m
        ensures Unrolls(h, from, to, step, n, body, x, env, st, direct, fuel)
      {
        UnrolledIsLoop(h, x, from, to, step, 0, body, env, st, direct, fuel);
      }
    }
  }

  lemma RoundFacts(m: Math, from: L.Number, to: L.Number, step: L.Number, iv: nat)
    requires ExactOnIntegers(m) && 0 <= iv <= GetTripCount(from, to, step)
    requires AsInt(step).Some? && !(from.NegativeZero? && AsInt(step).value > 0 && GetTripCount(from, to, step) > 0)
    ensures
      var i := RoundValue(m, from, step, iv);
      && (Within(m, i, to, step) <==> iv < GetTripCount(from, to, step))
      && (iv < GetTripCount(from, to, step) ==> CopyValue(m, from, step, iv) == i)
      && RoundValue(m, from, step, iv + 1) == m.arith(L.Add, i, step)
  {
    TripCountIsExact(m, from, to, step, iv);
    if iv < GetTripCount(from, to, step) {
      CopyValueIsRound(m, from, to, step, iv);
    }
  }

  /** The step of a loop as the compiler reads it: one, if there is none. */
  function StepConstant(m: Math, step: Exprs, ls: Locals): Constant {
    if step.NoExprs? then Some(L.CNumber(L.Integral(1)))
    else if step.tail.NoExprs? then Fold(m, step.head, ls)
    else None
  }

  predicate HeadInScope(s: Stat, env: Env)
    requires s.For?
  {
    InScope(s.from, env) && InScope(s.to, env) && (s.step.MoreExprs? ==> InScope(s.step.head, env))
  }

  lemma ForHead(h: Host, s: Stat, from: L.Number, to: L.Number, step: L.Number, env: Env, st: State, direct: bool, fuel: nat,
                a: Res, b: Res, d: Res)
    requires s.For? && a == Eval(h, s.from, env, st, direct, fuel) && (a.Done? ==> a.vals == [Prim(L.CNumber(from))])
    requires b == Eval(h, s.to, env, a.st, direct, fuel) && (b.Done? ==> b.vals == [Prim(L.CNumber(to))])
    requires d == EvalList(h, s.step, env, b.st, direct, fuel)
    requires if s.step.NoExprs? then step == L.Integral(1) else d.Done? ==> First(d.vals) == Prim(L.CNumber(step))
    ensures
      Exec(h, s, env, st, direct, fuel) ==
      if a.Stop? then Stopped(a.st) else if b.Stop? then Stopped(b.st) else if d.Stop? then Stopped(d.st)
      else ForLoop(h, s.x, from, to, step, s.body, env, d.st, direct, fuel)
  {
  }

  /**
   A loop statement whose head folds to numbers with a trip count is its copies, up to what is logged for the head, which
   stops only if it reads a local that is not in scope.
   */
  lemma LoopStatementUnrolls(h: Host, s: Stat, ls: Locals, from: L.Number, to: L.Number, step: L.Number,
                             env: Env, st: State, direct: bool, fuel: nat) returns (st': State)
    requires s.For? && Holds(ls, env, st) && ExactOnIntegers(h.math)
    requires Fold(h.math, s.from, ls) == Some(L.CNumber(from)) && Fold(h.math, s.to, ls) == Some(L.CNumber(to))
    requires StepConstant(h.math, s.step, ls) == Some(L.CNumber(step))
    requires GetTripCount(from, to, step) >= 0 && AsInt(step).Some? && !(from.NegativeZero? && AsInt(step).value > 0 && GetTripCount(from, to, step) > 0)
    ensures OnlyLogged(st, st')
    ensures
      var r := Exec(h, s, env, st, direct, fuel);
      || r == Unrolled(h, s.x, from, step, GetTripCount(from, to, step), 0, s.body, env, st', direct, fuel)
      || (r == Stopped(st') && !HeadInScope(s, env))
  {
    ConstantEvaluates(h, s.from, ls, env, st, direct, fuel);
    var a := Eval(h, s.from, env, st, direct, fuel);
    ConstantEvaluates(h, s.to, ls, env, a.st, direct, fuel);
    var b := Eval(h, s.to, env, a.st, direct, fuel);
    StepEvaluates(h, s.step, ls, step, env, b.st, direct, fuel);
    var d := EvalList(h, s.step, env, b.st, direct, fuel);
    ForHead(h, s, from, to, step, env, st, direct, fuel, a, b, d);
    st' := if a.Stop? then a.st else if b.Stop? then b.st else d.st;
    if a.Done? && b.Done? && d.Done? {
      UnrolledIsLoop(h, s.x, from, to, step, 0, s.body, env, d.st, direct, fuel);
    }
  }

  lemma StepEvaluates(h: Host, es: Exprs, ls: Locals, step: L.Number, env: Env, st: State, direct: bool, fuel: nat)
    requires Holds(ls, env, st) && StepConstant(h.math, es, ls) == Some(L.CNumber(step))
    ensures
      var d := EvalList(h, es, env, st, direct, fuel);
      && OnlyLogged(st, d.st)
      && (d.Done? ==> es.NoExprs? || First(d.vals) == Prim(L.CNumber(step)))
      && ((es.MoreExprs? ==> InScope(es.head, env)) ==> d.Done?)
  {
    if es.MoreExprs? {
      ConstantEvaluates(h, es.head, ls, env, st, direct, fuel);
    }
  }
}
