/** The maps while a loop is unrolled: right for every copy, and back to what they were at the end. */
module UnrollMaps {
  import opened Results
  import L = LuaSource
  import opened FoldSource
  import opened FoldSpec
  import opened FoldPass
  import opened FoldSound
  import opened FoldVisitor
  import opened CostAlgebra
  import opened CostDiscounts
  import opened CostVisitors
  import opened FoldUnroll

  function Head(loop: Stat, w: set<LocalId>): seq<Step>
    requires loop.For?
  {
    StepsE(loop.from, w) + StepsE(loop.to, w) + StepsEs(loop.step, w)
  }

  /** Reading unknown as absent, the maps are the same. */
  ghost predicate Same(a: Maps, b: Maps) {
    forall k :: Lookup(a, k) == Lookup(b, k)
  }

  ghost predicate SameOutside(steps: seq<Step>, a: Maps, b: Maps) {
    forall k :: !Touches(steps, k) ==> Lookup(a, k) == Lookup(b, k)
  }

  ghost predicate DeclaredUnknownIn(steps: seq<Step>, maps: Maps) {
    forall s <- steps :: s.Declared? ==> Get(maps.locals, s.x) == None
  }

  function WithValue(maps: Maps, x: LocalId, c: Constant): Maps {
    maps.(locals := maps.locals[x := c])
  }

  /** Maps in which a copy of the body can be compiled: right inside, unchanged outside the loop. */
  ghost predicate CopyState(m: Math, loop: Stat, w: set<LocalId>, before: Maps, value: L.Number, maps: Maps)
    requires loop.For?
  {
    && AllFit(m, Steps(loop.body, w), maps)
    && DeclaredUnknownIn(Head(loop, w), maps)
    && Get(maps.locals, loop.x) == Some(L.CNumber(value))
    && SameOutside(Steps(loop, w), before, maps)
  }

  lemma TouchesParts(a: seq<Step>, b: seq<Step>, k: Key)
    ensures Touches(a + b, k) <==> Touches(a, k) || Touches(b, k)
  {
    var ab := a + b;
    if Touches(a, k) {
      var i :| 0 <= i < |a| && KeyOf(a[i]) == k;
      assert ab[i] == a[i];
    }
    if Touches(b, k) {
      var i :| 0 <= i < |b| && KeyOf(b[i]) == k;
      assert ab[|a| + i] == b[i];
    }
  }

  /** The keys of a loop: those of its head, its variable, and those of its body. */
  lemma LoopKeys(loop: Stat, w: set<LocalId>, k: Key)
    requires loop.For?
    ensures Touches(Steps(loop, w), k) <==> Touches(Head(loop, w), k) || k == Local(loop.x) || Touches(Steps(loop.body, w), k)
  {
    TouchesParts(Head(loop, w) + [Declared(loop.x)], Steps(loop.body, w), k);
    TouchesParts(Head(loop, w), [Declared(loop.x)], k);
    assert Touches([Declared(loop.x)], k) <==> k == Local(loop.x) by {
      assert KeyOf([Declared(loop.x)][0]) == Local(loop.x);
    }
  }

  lemma LoopScoped(loop: Stat, w: set<LocalId>)
    requires loop.For? && Scoped(Steps(loop, w))
    ensures Scoped(Head(loop, w)) && Scoped(Steps(loop.body, w))
    ensures !Touches(Head(loop, w), Local(loop.x)) && !Touches(Steps(loop.body, w), Local(loop.x))
    ensures forall s, b :: s in Head(loop, w) && b in Steps(loop.body, w) ==> KeyOf(s) != KeyOf(b)
  {
    var head, body := Head(loop, w), Steps(loop.body, w);
    ScopedParts(head + [Declared(loop.x)], body);
    ScopedParts(head, [Declared(loop.x)]);
    assert (head + [Declared(loop.x)])[|head|] == Declared(loop.x);
    forall s, b | s in head && b in body
      ensures KeyOf(s) != KeyOf(b)
    {
      var i :| 0 <= i < |head| && head[i] == s;
      var j :| 0 <= j < |body| && body[j] == b;
      assert (head + [Declared(loop.x)])[i] == s;
      assert Before((head + [Declared(loop.x)])[i], body[j]);
    }
  }

  /** Folding a loop again records its head and then its body. */
  lemma RefoldRuns(m: Math, loop: Stat, w: set<LocalId>, maps: Maps, wasEmpty: bool)
    requires loop.For?
    ensures RunSteps(m, Steps(loop, w), maps, wasEmpty) ==
            RunSteps(m, Steps(loop.body, w), RunSteps(m, Head(loop, w), maps, wasEmpty), wasEmpty)
  {
    var one := [Declared(loop.x)];
    RunAppend(m, Head(loop, w) + one, Steps(loop.body, w), maps, wasEmpty);
    RunAppend(m, Head(loop, w), one, maps, wasEmpty);
    RunDeclared(m, one, RunSteps(m, Head(loop, w), maps, wasEmpty), wasEmpty);
  }

  /** Folding the loop with a value for its variable gives maps for one copy. */
  lemma CopyFits(m: Math, loop: Stat, w: set<LocalId>, before: Maps, maps: Maps, value: L.Number)
    requires loop.For? && Scoped(Steps(loop, w)) && SameOutside(Steps(loop, w), before, maps)
    requires DeclaredUnknownIn(Head(loop, w), maps) && DeclaredUnknownIn(Steps(loop.body, w), maps)
    ensures
      var r := RunSteps(m, Steps(loop, w), WithValue(maps, loop.x, Some(L.CNumber(value))), false);
      CopyState(m, loop, w, before, value, r)
  {
    var head, body := Head(loop, w), Steps(loop.body, w);
    var start := WithValue(maps, loop.x, Some(L.CNumber(value)));
    var mid := RunSteps(m, head, start, false);
    var r := RunSteps(m, body, mid, false);
    RefoldRuns(m, loop, w, start, false);
    LoopScoped(loop, w);
    forall i | 0 <= i < |body| && body[i].Declared?
      ensures Lookup(mid, KeyOf(body[i])) == None
    {
      assert body[i] in body;
      assert !Touches(head, KeyOf(body[i])) && KeyOf(body[i]) != Local(loop.x);
      RunFrame(m, head, start, false, KeyOf(body[i]));
    }
    PassFits(m, body, mid, false);
    RunFrame(m, head, start, false, Local(loop.x));
    RunFrame(m, body, mid, false, Local(loop.x));
    forall k | !Touches(Steps(loop, w), k)
      ensures Lookup(before, k) == Lookup(r, k)
    {
      LoopKeys(loop, w, k);
      RunFrame(m, Steps(loop, w), start, false, k);
      assert Lookup(start, k) == Lookup(maps, k);
    }
    forall s <- head | s.Declared?
      ensures Get(r.locals, s.x) == None
    {
      HeadStays(m, loop, w, start, s);
    }
  }

  lemma HeadStays(m: Math, loop: Stat, w: set<LocalId>, start: Maps, s: Step)
    requires loop.For? && Scoped(Steps(loop, w)) && s in Head(loop, w) && s.Declared?
    requires Get(start.locals, s.x) == None
    ensures Get(RunSteps(m, Steps(loop, w), start, false).locals, s.x) == None
  {
    LoopScoped(loop, w);
    RefoldRuns(m, loop, w, start, false);
    var head, body := Head(loop, w), Steps(loop.body, w);
    var mid := RunSteps(m, head, start, false);
    forall t <- head | t.OfLocal?
      ensures t.x != s.x
    {
      KeysDiffer(head, s, t);
    }
    UnrecordedStays(m, head, start, false, s.x);
    assert !Touches(body, KeyOf(s));
    RunFrame(m, body, mid, false, KeyOf(s));
  }

  lemma KeysDiffer(steps: seq<Step>, s: Step, t: Step)
    requires Scoped(steps) && s in steps && t in steps && s != t
    ensures KeyOf(s) != KeyOf(t)
  {
    var i :| 0 <= i < |steps| && steps[i] == s;
    var j :| 0 <= j < |steps| && steps[j] == t;
    assert i < j ==> Before(steps[i], steps[j]);
    assert j < i ==> Before(steps[j], steps[i]);
  }

  lemma DeclaredFromFit(m: Math, steps: seq<Step>, maps: Maps)
    requires AllFit(m, steps, maps)
    ensures DeclaredUnknownIn(steps, maps)
  {
    forall s <- steps | s.Declared?
      ensures Get(maps.locals, s.x) == None
    {
      var i :| 0 <= i < |steps| && steps[i] == s;
      assert StepFits(m, steps[i], maps);
    }
  }

  /** The last folding, with the variable unknown again, restores what the maps said before the loop was unrolled. */
  lemma RefoldRestores(m: Math, loop: Stat, w: set<LocalId>, before: Maps, maps: Maps)
    requires loop.For? && Scoped(Steps(loop, w)) && AllFit(m, Steps(loop, w), before)
    requires SameOutside(Steps(loop, w), before, maps) && DeclaredUnknownIn(Steps(loop.body, w), maps)
    requires DeclaredUnknownIn(Head(loop, w), maps)
    ensures Same(before, RunSteps(m, Steps(loop, w), WithValue(maps, loop.x, None), false))
  {
    var steps := Steps(loop, w);
    var start := WithValue(maps, loop.x, None);
    var after := RunSteps(m, steps, start, false);
    forall i | 0 <= i < |steps| && steps[i].Declared?
      ensures Lookup(start, KeyOf(steps[i])) == None
    {
      assert steps[i] in Head(loop, w) || steps[i] == Declared(loop.x) || steps[i] in Steps(loop.body, w);
    }
    PassFits(m, steps, start, false);
    forall k
      ensures Lookup(before, k) == Lookup(after, k)
    {
      if Touches(steps, k) {
        forall x: LocalId | !Touches(steps, Local(x))
          ensures Get(before.locals, x) == Get(after.locals, x)
        {
          OutsideStays(m, loop, w, before, maps, Local(x));
        }
        FitIsUnique(m, steps, before, after, k);
      } else {
        OutsideStays(m, loop, w, before, maps, k);
      }
    }
  }

  lemma OutsideStays(m: Math, loop: Stat, w: set<LocalId>, before: Maps, maps: Maps, k: Key)
    requires loop.For? && SameOutside(Steps(loop, w), before, maps) && !Touches(Steps(loop, w), k)
    ensures Lookup(RunSteps(m, Steps(loop, w), WithValue(maps, loop.x, None), false), k) == Lookup(before, k)
  {
    LoopKeys(loop, w, k);
    RunFrame(m, Steps(loop, w), WithValue(maps, loop.x, None), false, k);
  }

  // ----- running the copies -----

  /** What holds between copies: the closures are sound, and the locals outside the loop hold what is known of them. */
  ghost predicate Between(c: Ctx, env: Env, st: State) {
    Ready(c.(start := |st.log|), true, env, st)
  }

  /** Every value that `r` logged on top of `st` is the constant recorded: in the copy's maps, or for a closure in the program's. */
  ghost predicate LogsAgree(c: Ctx, maps: Maps, st: State, r: Flow) {
    Good(c.(k := maps.constants, l := maps.locals, start := |st.log|), r.st.log)
  }

  /** The loop is part of a program whose maps fit, and its variable is nobody else's. */
  ghost predicate LoopFits(c: Ctx, loop: Stat, before: Maps, env: Env) {
    && loop.For? && Scoped(Steps(loop, c.w)) && Written(loop.body) <= c.w && loop.x !in c.w
    && c.Valid() && before == Maps(c.k, c.l)
    && Fits(c.h.math, loop.body, c.k0, c.l0, c.w, true) && Get(c.l0, loop.x) == None
    && forall x <- env :: !Touches(Steps(loop, c.w), Local(x))
  }

  /** One round in maps for its copy: all constants are right, and things are ready for the next round. */
  lemma CopyIsSound(c: Ctx, loop: Stat, before: Maps, maps: Maps, value: L.Number, env: Env, st: State, fuel: nat)
    requires LoopFits(c, loop, before, env) && CopyState(c.h.math, loop, c.w, before, value, maps)
    requires Between(c, env, st)
    ensures
      var r := Round(c.h, loop.x, value, loop.body, env, st, true, fuel);
      LogsAgree(c, maps, st, r) && Between(c, env, r.st)
  {
    var c' := c.(k := maps.constants, l := maps.locals, start := |st.log|);
    var v := Prim(L.CNumber(value));
    forall x <- c.w
      ensures Get(maps.locals, x) == None
    {
      WrittenUnknown(c, loop, before, maps, value, env, x);
    }
    FitsFromSteps(c.h.math, loop.body, maps, c.w);
    Shallow(c.h.math, loop.body, maps.constants, maps.locals, c.w);
    forall x <- env
      ensures Get(maps.locals, x) == Get(c.l, x)
    {
      assert Lookup(before, Local(x)) == Lookup(maps, Local(x));
    }
    CodesSame(c.(start := |st.log|), c', st);
    UnknownMatches([loop.x], [v], c.l0);
    assert Matches([loop.x][1..], [], maps.locals);
    assert Matches([loop.x], [v], c'.Ls(true));
    BindReady(c', true, [loop.x], [v], env, st);
    var (env', st') := Bind([loop.x], [v], env, st);
    SoundExec(c', loop.body, env', st', true, fuel);
    var r := Round(c.h, loop.x, value, loop.body, env, st, true, fuel);
    KeptTrans(c', st, st', r.st);
    EnvOkLater(c.(start := |st.log|), true, env, st, r.st);
    EnvOkLater(c.(start := |st.log|), false, env, st, r.st);
    CodesSame(c', c.(start := |r.st.log|), r.st);
  }

  /** What holds of closures does not depend on the maps for direct code. */
  lemma CodesSame(a: Ctx, b: Ctx, st: State)
    requires Inv(a, st) && b.h == a.h && b.w == a.w && b.k0 == a.k0 && b.l0 == a.l0 && b.start == |st.log|
    ensures Inv(b, st)
  {
    forall code <- st.closures
      ensures CodeOk(b, code, st)
    {
      assert CodeOk(a, code, st);
    }
  }

  /** Written locals are unknown in a copy's maps as well. */
  lemma WrittenUnknown(c: Ctx, loop: Stat, before: Maps, maps: Maps, value: L.Number, env: Env, x: LocalId)
    requires LoopFits(c, loop, before, env) && CopyState(c.h.math, loop, c.w, before, value, maps) && x in c.w
    ensures Get(maps.locals, x) == None
  {
    LoopKeys(loop, c.w, Local(x));
    var head, body := Head(loop, c.w), Steps(loop.body, c.w);
    DeclaredFromFit(c.h.math, body, maps);
    if Touches(head, Local(x)) {
      var i :| 0 <= i < |head| && KeyOf(head[i]) == Local(x);
      assert head[i] in head;
    } else if Touches(body, Local(x)) {
      var i :| 0 <= i < |body| && KeyOf(body[i]) == Local(x);
      assert body[i] in body;
    } else {
      assert Lookup(before, Local(x)) == Lookup(maps, Local(x));
    }
  }

  /** The same for all copies from `iv` on, as far as the loop gets. */
  ghost predicate CopiesAgree(c: Ctx, loop: Stat, from: L.Number, step: L.Number, copyMaps: seq<Maps>, iv: nat, env: Env, st: State, fuel: nat)
    requires loop.For?
    decreases fuel
  {
    iv >= |copyMaps| ||
    (var r := Round(c.h, loop.x, CopyValue(c.h.math, from, step, iv), loop.body, env, st, true, fuel);
     && LogsAgree(c, copyMaps[iv], st, r)
     && (GoesOn(r, fuel) ==> CopiesAgree(c, loop, from, step, copyMaps, iv + 1, env, r.st, fuel - 1)))
  }

  /** Whatever the unrolled code evaluates is the constant recorded in the maps it was compiled with. */
  lemma {:induction false} UnrolledIsSound(c: Ctx, loop: Stat, before: Maps, from: L.Number, step: L.Number, copyMaps: seq<Maps>, iv: nat,
                                           env: Env, st: State, fuel: nat)
    requires LoopFits(c, loop, before, env) && Between(c, env, st)
    requires forall k: nat :: k < |copyMaps| ==> CopyState(c.h.math, loop, c.w, before, CopyValue(c.h.math, from, step, k), copyMaps[k])
    ensures CopiesAgree(c, loop, from, step, copyMaps, iv, env, st, fuel)
    decreases fuel
  {
    if iv < |copyMaps| {
      var value := CopyValue(c.h.math, from, step, iv);
      var r := Round(c.h, loop.x, value, loop.body, env, st, true, fuel);
      CopyIsSound(c, loop, before, copyMaps[iv], value, env, st, fuel);
      if GoesOn(r, fuel) {
        UnrolledIsSound(c, loop, before, from, step, copyMaps, iv + 1, env, r.st, fuel - 1);
      }
    }
  }

  // ----- compiling -----

  lemma FitSame(m: Math, steps: seq<Step>, a: Maps, b: Maps)
    requires AllFit(m, steps, a) && Same(a, b)
    ensures AllFit(m, steps, b)
  {
    forall i | 0 <= i < |steps|
      ensures StepFits(m, steps[i], b)
    {
      assert StepFits(m, steps[i], a);
      forall x <- Reads(steps[i])
        ensures Get(a.locals, x) == Get(b.locals, x)
      {
        assert Lookup(a, Local(x)) == Lookup(b, Local(x));
      }
      ValueDependsOnReads(m, steps[i], a.locals, b.locals);
      assert Lookup(a, KeyOf(steps[i])) == Lookup(b, KeyOf(steps[i]));
    }
  }

  lemma DeclaredSame(steps: seq<Step>, a: Maps, b: Maps)
    requires DeclaredUnknownIn(steps, a) && Same(a, b)
    ensures DeclaredUnknownIn(steps, b)
  {
    forall s <- steps | s.Declared?
      ensures Get(b.locals, s.x) == None
    {
      assert Lookup(a, Local(s.x)) == Lookup(b, Local(s.x));
    }
  }

  lemma OneMore(x: int, y: int)
    ensures (x + 1) * y == x * y + y
  {
  }

  lemma Hundredths(x: nat, y: nat)
    ensures x <= y / 100 <==> 100 * x <= y
  {
  }

  lemma ProductOrder(k: nat, x: nat, y: nat)
    ensures x <= y ==> k * x <= k * y
    ensures y <= x ==> k * y <= k * x
  {
    if x <= y {
      assert k * (y - x) >= 0;
    } else {
      assert k * (x - y) >= 0;
    }
  }

  /** Compiles statements; the maps are refolded for every copy of a loop that it unrolls. */
  class Unroller {
    const math: Math
    const written: set<LocalId>
    const thresholdBase: nat
    const thresholdMaxBoost: nat
    const builtins: set<NodeId>
    var constants: Constants
    var locals: Locals

    constructor (math: Math, written: set<LocalId>, thresholdBase: nat, thresholdMaxBoost: nat, builtins: set<NodeId>,
                 constants: Constants, locals: Locals)
      ensures this.math == math && this.written == written && State() == Maps(constants, locals)
      ensures this.thresholdBase == thresholdBase && this.thresholdMaxBoost == thresholdMaxBoost && this.builtins == builtins
    {
      this.math, this.written, this.builtins := math, written, builtins;
      this.thresholdBase, this.thresholdMaxBoost := thresholdBase, thresholdMaxBoost;
      this.constants, this.locals := constants, locals;
    }

    function State(): Maps
      reads this
    {
      Maps(constants, locals)
    }

    method FoldConstants(s: Stat)
      requires Scoped(Steps(s, written)) && locals != map[]
      modifies this
      ensures State() == RunSteps(math, Steps(s, written), old(State()), false)
    {
      var visitor := new ConstantVisitor(math, written, constants, locals);
      visitor.Visit(s);
      constants, locals := visitor.constants, visitor.locals;
    }

    /** The number of rounds, or -1 when it is not known. */
    function TripCount(loop: Stat): int
      requires loop.For?
      reads this
    {
      var fromc, toc := Get(constants, loop.from.id), Get(constants, loop.to.id);
      var stepc := if loop.step.MoreExprs? then Get(constants, loop.step.head.id) else Some(L.CNumber(L.Integral(1)));
      if fromc.Some? && fromc.value.CNumber? && toc.Some? && toc.value.CNumber? && stepc.Some? && stepc.value.CNumber?
      then GetTripCount(fromc.value.n, toc.value.n, stepc.value.n)
      else -1
    }

    /** The constants in the head count, and a missing step is one; without a constant number there is no count. */
    lemma TripCountIs(loop: Stat, f: L.Number, t: L.Number, s: L.Number)
      requires loop.For?
      ensures
        && Get(constants, loop.from.id) == Some(L.CNumber(f)) && Get(constants, loop.to.id) == Some(L.CNumber(t))
        && (if loop.step.NoExprs? then s == L.Integral(1) else Get(constants, loop.step.head.id) == Some(L.CNumber(s)))
        ==> TripCount(loop) == GetTripCount(f, t, s)
      ensures TripCount(loop) >= 0 ==> IsNumber(loop.from) && IsNumber(loop.to) && (loop.step.MoreExprs? ==> IsNumber(loop.step.head))
    {
    }

    predicate IsNumber(e: Expr)
      reads this
    {
      Get(constants, e.id).Some? && Get(constants, e.id).value.CNumber?
    }

    /** The copies may cost as much as the threshold, which grows with what they save. */
    predicate Worthwhile(loop: Stat, tripCount: nat)
      requires loop.For?
    {
      var cost := BodyCost(loop.body, [loop.x], Setting(builtins, math.neg));
      var unrolled, baseline := PriceOf(cost, [true]) * tripCount, (CostOf(cost) + 1) * tripCount;
      unrolled <= thresholdBase * Profit(unrolled, baseline) / 100
    }

    /** In percent. */
    function Profit(unrolled: int, baseline: int): int {
      if unrolled == 0 || 100 * baseline / unrolled > thresholdMaxBoost then thresholdMaxBoost else 100 * baseline / unrolled
    }

    /**
     The copies are worth it if they cost nothing or, in hundredths, no more than the threshold times the boost and than
     the threshold times how much dearer the loop is, its own step counted in every round.
     */
    lemma WorthwhileIs(loop: Stat, tripCount: nat, cost: Build, unrolled: nat, baseline: nat)
      requires loop.For? && cost == BodyCost(loop.body, [loop.x], Setting(builtins, math.neg))
      requires unrolled == PriceOf(cost, [true]) * tripCount && baseline == CostOf(cost) * tripCount + tripCount
      ensures
        Worthwhile(loop, tripCount)
        <==> unrolled == 0 || (100 * unrolled <= thresholdBase * thresholdMaxBoost
                               && 100 * unrolled <= thresholdBase * (100 * baseline / unrolled))
    {
      OneMore(CostOf(cost), tripCount);
      ThresholdIs(unrolled, baseline);
    }

    lemma ThresholdIs(unrolled: nat, baseline: nat)
      ensures
        unrolled <= thresholdBase * Profit(unrolled, baseline) / 100
        <==> unrolled == 0 || (100 * unrolled <= thresholdBase * thresholdMaxBoost
                               && 100 * unrolled <= thresholdBase * (100 * baseline / unrolled))
    {
      var profit := Profit(unrolled, baseline);
      if unrolled > 0 {
        var ratio := 100 * baseline / unrolled;
        ProductOrder(thresholdBase, thresholdMaxBoost, ratio);
        Hundredths(unrolled, thresholdBase * profit);
      } else {
        ProductOrder(thresholdBase, 0, profit);
      }
    }

    method IsWorthwhile(loop: Stat, tripCount: nat) returns (ok: bool)
      requires loop.For?
      ensures ok == Worthwhile(loop, tripCount)
    {
      var cx := Setting(builtins, math.neg);
      var unrolledCost := BodyPrice(loop.body, [loop.x], cx, [true]);
      var baselineCost := BodyPrice(loop.body, [loop.x], cx, []);
      NoDiscount(BodyCost(loop.body, [loop.x], cx));
      unrolledCost, baselineCost := unrolledCost * tripCount, (baselineCost + 1) * tripCount;
      ok := unrolledCost <= thresholdBase * Profit(unrolledCost, baselineCost) / 100;
    }

    /** Unrolls a loop if its head is constant, it is short, its variable is never written, and it is worth it. */
    method TryCompileUnrolledFor(loop: Stat) returns (ok: bool)
      requires loop.For? && Scoped(Steps(loop, written)) && AllFit(math, Steps(loop, written), State())
      modifies this
      ensures Same(old(State()), State())
      ensures
        var tripCount := old(TripCount(loop));
        ok <==> 0 <= tripCount <= thresholdBase && loop.x !in written && Worthwhile(loop, tripCount)
      decreases loop, 1
    {
      var tripCount := TripCount(loop);
      if tripCount < 0 || tripCount > thresholdBase || loop.x in written {
        return false;
      }
      ok := IsWorthwhile(loop, tripCount);
      if ok {
        var from := Get(constants, loop.from.id).value.n;
        var step := if loop.step.MoreExprs? then Get(constants, loop.step.head.id).value.n else L.Integral(1);
        ghost var _ := CompileUnrolledFor(loop, tripCount, from, step);
      }
    }

    /** Every copy is compiled in maps that are right for it, and at the end the maps say what they said before. */
    method CompileUnrolledFor(loop: Stat, tripCount: nat, from: L.Number, step: L.Number) returns (ghost copyMaps: seq<Maps>)
      requires loop.For? && Scoped(Steps(loop, written)) && AllFit(math, Steps(loop, written), State())
      modifies this
      ensures Same(old(State()), State())
      ensures |copyMaps| == tripCount
      ensures forall iv: nat :: iv < tripCount ==>
                CopyState(math, loop, written, old(State()), CopyValue(math, from, step, iv), copyMaps[iv])
      decreases loop, 0
    {
      ghost var before := State();
      copyMaps := [];
      FitGivesDeclared(loop);
      for iv := 0 to tripCount
        invariant SameOutside(Steps(loop, written), before, State())
        invariant DeclaredUnknownIn(Head(loop, written), State()) && DeclaredUnknownIn(Steps(loop.body, written), State())
        invariant |copyMaps| == iv
        invariant forall k: nat :: k < iv ==>
                    CopyState(math, loop, written, before, CopyValue(math, from, step, k), copyMaps[k])
      {
        var value := CopyValue(math, from, step, iv);
        CopyFits(math, loop, written, before, State(), value);
        locals := locals[loop.x := Some(L.CNumber(value))];
        assert loop.x in locals;
        FoldConstants(loop);
        ghost var inCopy := State();
        copyMaps := copyMaps + [inCopy];
        LoopScoped(loop, written);
        DeclaredFromFit(math, Steps(loop.body, written), inCopy);
        CompileStat(loop.body);
        DeclaredSame(Head(loop, written), inCopy, State());
        DeclaredSame(Steps(loop.body, written), inCopy, State());
      }
      RefoldRestores(math, loop, written, before, State());
      locals := locals[loop.x := None];
      assert loop.x in locals;
      FoldConstants(loop);
    }

    lemma FitGivesDeclared(loop: Stat)
      requires loop.For? && AllFit(math, Steps(loop, written), State())
      ensures DeclaredUnknownIn(Head(loop, written), State()) && DeclaredUnknownIn(Steps(loop.body, written), State())
    {
      AllFitParts(math, Head(loop, written) + [Declared(loop.x)], Steps(loop.body, written), State());
      AllFitParts(math, Head(loop, written), [Declared(loop.x)], State());
      DeclaredFromFit(math, Head(loop, written), State());
      DeclaredFromFit(math, Steps(loop.body, written), State());
    }

    /** Whatever is unrolled on the way, the maps come back. */
    method CompileStat(s: Stat)
      requires Scoped(Steps(s, written)) && AllFit(math, Steps(s, written), State())
      modifies this
      ensures Same(old(State()), State())
      decreases s, 2
    {
      match s {
        case Block(stats) => CompileAll(stats);
        case If(c, yes, no) =>
          Parts(StepsE(c, written) + Steps(yes, written), Steps(no, written));
          Parts(StepsE(c, written), Steps(yes, written));
          ghost var start := State();
          CompileStat(yes);
          FitSame(math, Steps(no, written), start, State());
          CompileStat(no);
        case While(c, body) =>
          Parts(StepsE(c, written), Steps(body, written));
          CompileStat(body);
        case Repeat(body, c) =>
          Parts(Steps(body, written), StepsE(c, written));
          CompileStat(body);
        case For(_, _, _, _, body) =>
          var unrolled := TryCompileUnrolledFor(s);
          if !unrolled {
            FitSame(math, Steps(s, written), old(State()), State());
            Parts(Head(s, written) + [Declared(s.x)], Steps(body, written));
            CompileStat(body);
          }
        case ForIn(vars, values, body) =>
          Parts(StepsEs(values, written) + Declare(vars), Steps(body, written));
          CompileStat(body);
        case LocalStat(_, _) =>
        case LocalFunction(_, _) =>
        case Assign(_, _) =>
        case Compound(_, _, _) =>
        case FunctionStat(_, _) =>
        case ExprStat(_) =>
        case Return(_) =>
        case Break =>
        case Continue =>
      }
    }

    method CompileAll(ss: Stats)
      requires Scoped(StepsList(ss, written)) && AllFit(math, StepsList(ss, written), State())
      modifies this
      ensures Same(old(State()), State())
      decreases ss, 0
    {
      if ss.MoreStats? {
        Parts(Steps(ss.head, written), StepsList(ss.tail, written));
        ghost var start := State();
        CompileStat(ss.head);
        FitSame(math, StepsList(ss.tail, written), start, State());
        CompileAll(ss.tail);
      }
    }

    lemma Parts(a: seq<Step>, b: seq<Step>)
      requires Scoped(a + b) && AllFit(math, a + b, State())
      ensures Scoped(a) && Scoped(b) && AllFit(math, a, State()) && AllFit(math, b, State())
    {
      ScopedParts(a, b);
      AllFitParts(math, a, b, State());
    }
  }
}
