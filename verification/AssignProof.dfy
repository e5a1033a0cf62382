/**
 Assignment is simultaneous: the emitted code evaluates all targets and values in the state before
 the assignment, although locals are written while later values are still computed and operands
 are read from the registers of locals as late as possible.
 */
module AssignProof {
  import opened Results
  import opened LuaSource
  import opened RegisterVm
  import opened EmitSpec
  import opened EmitProof
  import opened AssignSpec

  // ----- targets -----

  /** A register that still holds an operand: allocated, and a local's or a temporary. */
  ghost predicate LvReady(c: Context, lv: LValue, top: nat) {
    match lv
    case LvLocal(reg) => reg in c.locals.Values && reg < top
    case LvIndexName(reg, _) => reg < top
    case LvIndexNumber(reg, _) => reg < top
    case LvIndexExpr(reg, index) => reg < top && index < top
    case _ => true
  }

  /** The l-value denotes the place, given what the registers hold. */
  ghost predicate Denotes(c: Context, lv: LValue, p: Place, regs: seq<Value>) {
    match lv
    case LvLocal(reg) => p.ToLocal? && p.local in c.locals && c.locals[p.local] == reg
    case LvUpvalue(u) => p == ToUpvalue(u)
    case LvGlobal(n) => p == ToGlobal(n)
    case LvIndexName(reg, n) => reg < |regs| && p == ToTable(regs[reg], Prim(CString(n)))
    case LvIndexNumber(reg, k) => reg < |regs| && p == ToTable(regs[reg], Prim(CNumber(Integral(k + 1))))
    case LvIndexExpr(reg, index) => reg < |regs| && index < |regs| && p == ToTable(regs[reg], regs[index])
  }

  /** A run that evaluates without assigning: nothing that was allocated before changes. */
  ghost predicate Preserves(vm: Vm, cfg: Config, stop: nat, top: nat, w: World) {
    match Run(vm, cfg, stop)
    case None => false
    case Some(out) => out.pc == stop && out.world == w && SameBelow(cfg.regs, out.regs, top)
  }

  lemma PreservesThen(vm: Vm, cfg: Config, mid: nat, stop: nat, top: nat, top': nat, w: World, w': World)
    requires mid <= stop && top <= top' && Preserves(vm, cfg, mid, top, w)
    requires Preserves(vm, Run(vm, cfg, mid).value, stop, top', w')
    ensures Preserves(vm, cfg, stop, top, w')
    ensures Run(vm, cfg, stop) == Run(vm, Run(vm, cfg, mid).value, stop)
  {
    RunThen(vm, cfg, mid, stop);
  }

  ghost predicate SoundTarget(c: Context, h: Host, env: Env, e: Expr) {
    match e
    case IndexName(x, _) => Sound(c, h, env, x)
    case IndexExpr(x, i) => Sound(c, h, env, x) && Sound(c, h, env, i)
    case _ => true
  }

  lemma LValueCorrect(c: Context, s: Builder, e: Expr, t: Builder, lv: LValue, vm: Vm, env: Env, cfg: Config)
    requires IsTarget(e) && LValueCode(c, s, e) == Ok((t, lv))
    requires Placed(vm, s, t) && Ready(c, env, s, cfg, t.stackSize) && SoundTarget(c, vm.host, env, e)
    ensures
      var (w, p) := EvalPlace(vm.host, env, e, cfg.world);
      && Preserves(vm, cfg, |t.insns|, s.regTop, w)
      && var out := Run(vm, cfg, |t.insns|).value;
         Denotes(c, lv, p, out.regs) && LvReady(c, lv, t.regTop) && Ready(c, env, t, out, t.stackSize)
  {
    match e
    case Local(l) =>
    case Upvalue(_) =>
    case Global(_) =>
    case IndexName(x, k) => AutoCorrect(c, s, x, vm, env, cfg);
    case IndexExpr(_, _) => LValueIndexCorrect(c, s, e, t, lv, vm, env, cfg);
  }

  lemma LValueIndexCorrect(c: Context, s: Builder, e: Expr, t: Builder, lv: LValue, vm: Vm, env: Env, cfg: Config)
    requires e.IndexExpr? && LValueCode(c, s, e) == Ok((t, lv))
    requires Placed(vm, s, t) && Ready(c, env, s, cfg, t.stackSize) && SoundTarget(c, vm.host, env, e)
    ensures
      var (w, p) := EvalPlace(vm.host, env, e, cfg.world);
      && Preserves(vm, cfg, |t.insns|, s.regTop, w)
      && var out := Run(vm, cfg, |t.insns|).value;
         Denotes(c, lv, p, out.regs) && LvReady(c, lv, t.regTop) && Ready(c, env, t, out, t.stackSize)
  {
    var x, i := e.table, e.index;
    if SmallIndex(c, i).Some? || (i in c.known && c.known[i].CString?) {
      AutoCorrect(c, s, x, vm, env, cfg);
    } else {
      OperandsCorrect(c, s, x, i, vm, env, cfg);
    }
  }

  ghost predicate AllDenote(c: Context, lvs: seq<LValue>, ps: seq<Place>, regs: seq<Value>, top: nat) {
    |lvs| == |ps| && forall i :: 0 <= i < |lvs| ==> Denotes(c, lvs[i], ps[i], regs) && LvReady(c, lvs[i], top)
  }

  lemma DenotesStays(c: Context, lv: LValue, p: Place, before: seq<Value>, after: seq<Value>, top: nat, top': nat)
    requires Denotes(c, lv, p, before) && LvReady(c, lv, top) && SameBelow(before, after, top) && top <= top'
    ensures Denotes(c, lv, p, after) && LvReady(c, lv, top')
  {
  }

  lemma {:induction false} LValuesCorrect(c: Context, s: Builder, es: seq<Expr>, t: Builder, lvs: seq<LValue>,
                                          vm: Vm, env: Env, cfg: Config)
    requires (forall e <- es :: IsTarget(e) && SoundTarget(c, vm.host, env, e)) && LValuesCode(c, s, es) == Ok((t, lvs))
    requires Placed(vm, s, t) && Ready(c, env, s, cfg, t.stackSize)
    ensures
      var (w, ps) := EvalPlaces(vm.host, env, es, cfg.world);
      && Preserves(vm, cfg, |t.insns|, s.regTop, w)
      && var out := Run(vm, cfg, |t.insns|).value;
         AllDenote(c, lvs, ps, out.regs, t.regTop) && Ready(c, env, t, out, t.stackSize)
    decreases |es|
  {
    if es != [] {
      var (s1, lv) := LValueCode(c, s, es[0]).value;
      PlacedPrefix(vm, s, s1, t);
      LValueCorrect(c, s, es[0], s1, lv, vm, env, cfg);
      var mid := Run(vm, cfg, |s1.insns|).value;
      LValuesCorrect(c, s1, es[1..], t, lvs[1..], vm, env, mid);
      var (w1, p) := EvalPlace(vm.host, env, es[0], cfg.world);
      PreservesThen(vm, cfg, |s1.insns|, |t.insns|, s.regTop, s1.regTop, w1, EvalPlaces(vm.host, env, es[1..], w1).0);
      DenotesStays(c, lv, p, mid.regs, Run(vm, cfg, |t.insns|).value.regs, s1.regTop, t.regTop);
    }
  }

  // ----- conflicts -----

  /** Conflicting locals have temporaries of their own, in a range that nothing else uses. */
  ghost predicate Resolved(c: Context, lvs: seq<LValue>, values: seq<Expr>, conflict: seq<Option<nat>>, from: nat, lo: nat, hi: nat) {
    && |conflict| == |lvs| && from <= |lvs|
    && (forall k :: from <= k < |lvs| ==> (conflict[k].Some? <==> lvs[k].LvLocal? && InConflict(c, lvs, values, lvs[k].reg)))
    && (forall k :: from <= k < |lvs| && conflict[k].Some? ==> lo <= conflict[k].value < hi)
    && (forall j, k :: from <= j < k < |lvs| && conflict[j].Some? ==> conflict[j] != conflict[k])
  }

  lemma {:induction false} ConflictRegsResolve(c: Context, s: Builder, lvs: seq<LValue>, values: seq<Expr>, prefix: seq<Option<nat>>,
                                               t: Builder, rest: seq<Option<nat>>)
    requires |prefix| <= |lvs| && ConflictRegs(c, s, lvs, values, |prefix|) == Ok((t, rest))
    ensures Resolved(c, lvs, values, prefix + rest, |prefix|, s.regTop, t.regTop)
    ensures s.regTop <= s.stackSize ==> t.regTop <= t.stackSize
    decreases |rest|
  {
    var i := |prefix|;
    if i < |lvs| {
      var s1 := if rest[0].Some? then AllocReg(s, 1).value else s;
      ConflictRegsResolve(c, s1, lvs, values, prefix + [rest[0]], t, rest[1..]);
      assert prefix + [rest[0]] + rest[1..] == prefix + rest;
    }
  }

  // ----- values -----

  /** The locals that the values from `i` on read still hold what they held before. */
  ghost predicate Unspoiled(c: Context, env: Env, values: seq<Expr>, i: nat, regs: seq<Value>) {
    forall k, l | i <= k < |values| && l in c.locals && Mentions(values[k], l) ::
      l in env && c.locals[l] < |regs| && regs[c.locals[l]] == env[l]
  }

  ghost predicate AllSound(c: Context, h: Host, env: Env, es: seq<Expr>) {
    forall e <- es :: Sound(c, h, env, e)
  }

  /** The environment that the registers hold now. */
  ghost function Current(c: Context, env: Env, regs: seq<Value>): Env
    requires forall l <- c.locals :: c.locals[l] < |regs|
  {
    env + map l | l in c.locals :: regs[c.locals[l]]
  }

  lemma {:induction false} SoundFrame(c: Context, h: Host, env: Env, env': Env, e: Expr)
    requires forall l :: Mentions(e, l) ==> (l in env <==> l in env') && (l in env ==> env[l] == env'[l])
    requires Sound(c, h, env, e)
    ensures Sound(c, h, env', e)
    decreases e
  {
    if e in c.known {
      forall w ensures Eval(h, env', e, w) == (w, Prim(c.known[e])) {
        EvalFrame(h, env, env', e, w);
      }
    }
    match e
    case Group(x) => SoundFrame(c, h, env, env', x);
    case Unary(_, x) => SoundFrame(c, h, env, env', x);
    case Binary(_, x, y) =>
      SoundFrame(c, h, env, env', x);
      SoundFrame(c, h, env, env', y);
    case IfElse(x, y, z) =>
      SoundFrame(c, h, env, env', x);
      SoundFrame(c, h, env, env', y);
      SoundFrame(c, h, env, env', z);
    case IndexName(x, _) => SoundFrame(c, h, env, env', x);
    case IndexExpr(x, i) =>
      SoundFrame(c, h, env, env', x);
      SoundFrame(c, h, env, env', i);
    case _ =>
  }

  /** What compiling in the middle of an assignment needs: room, and locals in allocated registers. */
  ghost predicate Roomy(c: Context, env: Env, s: Builder, cfg: Config, frame: nat) {
    && cfg.pc == |s.insns| && s.regTop <= s.stackSize <= frame <= |cfg.regs|
    && forall l <- c.locals :: c.locals[l] < s.regTop && l in env
  }

  /** A value can be compiled although some locals were already overwritten. */
  lemma CurrentReady(c: Context, env: Env, s: Builder, cfg: Config, frame: nat, values: seq<Expr>, k: nat, h: Host)
    requires Roomy(c, env, s, cfg, frame) && Unspoiled(c, env, values, k, cfg.regs) && k < |values|
    requires Sound(c, h, env, values[k])
    ensures Ready(c, Current(c, env, cfg.regs), s, cfg, frame) && Sound(c, h, Current(c, env, cfg.regs), values[k])
    ensures forall w :: Eval(h, Current(c, env, cfg.regs), values[k], w) == Eval(h, env, values[k], w)
  {
    var cur := Current(c, env, cfg.regs);
    forall l | Mentions(values[k], l)
      ensures (l in env <==> l in cur) && (l in env ==> env[l] == cur[l])
    {
    }
    SoundFrame(c, h, env, cur, values[k]);
    forall w ensures Eval(h, cur, values[k], w) == Eval(h, env, values[k], w) {
      EvalFrame(h, env, cur, values[k], w);
    }
  }

  /** The number of targets whose values are computed one by one. */
  function EarlyCount(targets: nat, values: nat): nat {
    if targets > values then (if values == 0 then 0 else values - 1) else targets
  }

  /** No target in the range is computed into the register. */
  ghost predicate NotTargeted(lvs: seq<LValue>, conflict: seq<Option<nat>>, i: nat, n: nat, r: nat)
    requires n <= |lvs| == |conflict|
  {
    forall k :: i <= k < n ==> TargetReg(lvs, conflict, k) != Some(r)
  }

  /** Only the registers of targets in the range have changed. */
  ghost predicate OnlyTargets(lvs: seq<LValue>, conflict: seq<Option<nat>>, i: nat, n: nat, before: seq<Value>, after: seq<Value>, top: nat)
    requires n <= |lvs| == |conflict|
  {
    && |before| == |after|
    && forall r :: 0 <= r < top && r < |before| && NotTargeted(lvs, conflict, i, n, r) ==> after[r] == before[r]
  }

  /** The value of a local is in the register chosen for it, or in one of the last registers. */
  ghost predicate AtHome(lvs: seq<LValue>, conflict: seq<Option<nat>>, i: nat, n: nat, regs: seq<nat>, top: nat)
    requires |lvs| == |conflict|
  {
    && i <= |lvs| && |regs| == |lvs| - i
    && forall k :: 0 <= k < |regs| && lvs[i + k].LvLocal? ==>
         Some(regs[k]) == TargetReg(lvs, conflict, i + k) || (n <= i + k && top <= regs[k])
  }

  /** Every value is where the stores and moves will look for it. */
  ghost predicate Collected(lvs: seq<LValue>, i: nat, regs: seq<nat>, vs: seq<Value>, file: seq<Value>)
  {
    && i <= |lvs| && |regs| == |vs| == |lvs| - i
    && forall k :: 0 <= k < |regs| ==>
         && regs[k] < |file|
         && ((!lvs[i + k].LvLocal? || forall j :: k < j < |regs| && lvs[i + j].LvLocal? ==> regs[j] != regs[k])
             ==> file[regs[k]] == vs[k])
  }

  /** How the registers of values relate to the locals. */
  ghost predicate Separate(c: Context, lvs: seq<LValue>, i: nat, regs: seq<nat>) {
    && i <= |lvs| && |regs| == |lvs| - i
    && (forall k :: 0 <= k < |regs| && lvs[i + k].LvLocal? ==> regs[k] == lvs[i + k].reg || regs[k] !in c.locals.Values)
    && (forall j, k :: 0 <= j < k < |regs| ==> Apart(lvs[i + j], lvs[i + k], regs[j], regs[k]))
  }

  /** Two targets, the first one before the second, and the registers of their values. */
  ghost predicate Apart(a: LValue, b: LValue, ra: nat, rb: nat) {
    a.LvLocal? && b.LvLocal? ==> (ra == rb ==> rb == b.reg) && (a == b && rb == b.reg ==> ra == rb)
  }

  /** All that holds while values are computed, from target `i` on. */
  ghost predicate Computing(c: Context, lvs: seq<LValue>, conflict: seq<Option<nat>>, values: seq<Expr>, lo: nat, i: nat,
                            vm: Vm, env: Env, s: Builder, cfg: Config, frame: nat)
  {
    && Roomy(c, env, s, cfg, frame) && Unspoiled(c, env, values, i, cfg.regs) && AllSound(c, vm.host, env, values)
    && Resolved(c, lvs, values, conflict, 0, lo, s.regTop) && (forall l <- c.locals :: c.locals[l] < lo <= s.regTop)
    && (forall k :: 0 <= k < |lvs| && lvs[k].LvLocal? ==> lvs[k].reg in c.locals.Values)
  }

  /** Computing the value of one target spoils no later one. */
  lemma {:induction false} ValueCorrect(c: Context, lvs: seq<LValue>, conflict: seq<Option<nat>>, values: seq<Expr>, lo: nat, i: nat,
                                        vm: Vm, env: Env, s: Builder, cfg: Config, t: Builder, r: nat)
    requires |conflict| == |lvs| && i < |lvs| && i < |values|
    requires ValueCode(c, s, TargetReg(lvs, conflict, i), values[i]) == Ok((t, r))
    requires Placed(vm, s, t) && Computing(c, lvs, conflict, values, lo, i, vm, env, s, cfg, t.stackSize)
    ensures
      match Run(vm, cfg, |t.insns|)
      case None => false
      case Some(out) =>
        var (w, v) := Eval(vm.host, env, values[i], cfg.world);
        && out.pc == |t.insns| && out.world == w && |out.regs| == |cfg.regs|
        && (forall q :: 0 <= q < s.regTop && q < |cfg.regs| && TargetReg(lvs, conflict, i) != Some(q) ==> out.regs[q] == cfg.regs[q])
        && r < t.regTop && r < |out.regs| && out.regs[r] == v
        && Computing(c, lvs, conflict, values, lo, i + 1, vm, env, t, out, t.stackSize)
  {
    var cur := Current(c, env, cfg.regs);
    CurrentReady(c, env, s, cfg, t.stackSize, values, i, vm.host);
    var target := TargetReg(lvs, conflict, i);
    match target
    case Some(reg) =>
      assert lvs[i].reg in c.locals.Values;
      ExprCorrect(c, s, values[i], reg, false, vm, cur, cfg);
      var out := Run(vm, cfg, |t.insns|).value;
      NotSpoiled(c, lvs, conflict, values, lo, i, env, reg, cfg.regs, out.regs, s.regTop);
    case None =>
      AutoCorrect(c, s, values[i], vm, cur, cfg);
  }

  /** A local that is written early is read by no later value. */
  lemma NotSpoiled(c: Context, lvs: seq<LValue>, conflict: seq<Option<nat>>, values: seq<Expr>, lo: nat, i: nat,
                   env: Env, reg: nat, before: seq<Value>, after: seq<Value>, top: nat)
    requires |conflict| == |lvs| && i < |lvs| && i < |values| && TargetReg(lvs, conflict, i) == Some(reg)
    requires Resolved(c, lvs, values, conflict, 0, lo, top) && forall l <- c.locals :: c.locals[l] < lo
    requires Unspoiled(c, env, values, i, before) && SameBelowExcept(before, after, top, reg)
    requires forall l <- c.locals :: c.locals[l] < top
    ensures Unspoiled(c, env, values, i + 1, after)
  {
    forall k, l | i + 1 <= k < |values| && l in c.locals && Mentions(values[k], l)
      ensures l in env && c.locals[l] < |after| && after[c.locals[l]] == env[l]
    {
      if c.locals[l] == reg {
        assert conflict[i].None? && lvs[i] == LvLocal(reg);
        assert AssignedBefore(lvs, |lvs|, reg) && (k < |lvs| ==> AssignedBefore(lvs, k, reg));
        assert Reads(c, values[k], reg);
        assert false;
      }
    }
  }

  lemma {:induction false} LoadNilsCorrect(s: Builder, target: nat, count: nat, vm: Vm, cfg: Config)
    requires Placed(vm, s, LoadNils(s, target, count)) && cfg.pc == |s.insns| && target + count <= |cfg.regs|
    ensures
      match Run(vm, cfg, |s.insns| + count)
      case None => false
      case Some(out) =>
        && out.pc == |s.insns| + count && out.world == cfg.world && |out.regs| == |cfg.regs|
        && forall r :: 0 <= r < |out.regs| ==> out.regs[r] == if target <= r < target + count then NIL else cfg.regs[r]
    decreases count
  {
    if count > 0 {
      var s1 := EmitABC(s, LOADNIL, target, 0, 0);
      PlacedPrefix(vm, s, s1, LoadNils(s, target, count));
      assert vm.code[cfg.pc] == s1.insns[cfg.pc];
      RunOne(vm, cfg, |s1.insns|);
      RunThen(vm, cfg, |s1.insns|, |s.insns| + count);
      LoadNilsCorrect(s1, target + 1, count - 1, vm, Run(vm, cfg, |s1.insns|).value);
    }
  }

  /** The number of registers for the last value and the nils after it fits a byte. */
  predicate Fits(targets: nat, values: nat) {
    targets <= values || targets - values + 1 < BYTE
  }

  /** The values of the targets from `i` on. */
  function ValuesFrom(h: Host, env: Env, values: seq<Expr>, i: nat, targets: nat, w: World): (r: (World, seq<Value>))
    requires i <= targets && i <= |values|
    ensures |r.1| == targets - i
  {
    var n := Smaller(targets, |values|);
    var (w', vs) := EvalList(h, env, values[i..n], w);
    (w', Padded(vs, targets - i))
  }

  /** What the code for the values from `i` on achieves. */
  ghost predicate ValuesDone(c: Context, lvs: seq<LValue>, conflict: seq<Option<nat>>, values: seq<Expr>, i: nat, regs: seq<nat>,
                             vm: Vm, env: Env, s: Builder, cfg: Config, t: Builder)
    requires |lvs| == |conflict| && i <= |lvs| && i <= |values|
  {
    match Run(vm, cfg, |t.insns|)
    case None => false
    case Some(out) =>
      var (w, vs) := ValuesFrom(vm.host, env, values, i, |lvs|, cfg.world);
      && out.pc == |t.insns| && out.world == w
      && OnlyTargets(lvs, conflict, i, EarlyCount(|lvs|, |values|), cfg.regs, out.regs, s.regTop)
      && Collected(lvs, i, regs, vs, out.regs) && Separate(c, lvs, i, regs)
      && AtHome(lvs, conflict, i, EarlyCount(|lvs|, |values|), regs, s.regTop)
      && (forall k :: 0 <= k < |regs| ==> regs[k] < t.regTop)
      && Unspoiled(c, env, values, |lvs|, out.regs) && Roomy(c, env, t, out, t.stackSize)
  }

  /** The values are in the registers from `base`, and nothing below has changed. */
  ghost predicate Follow(vm: Vm, cfg: Config, stop: nat, base: nat, meaning: (World, seq<Value>)) {
    match Run(vm, cfg, stop)
    case None => false
    case Some(out) =>
      && out.pc == stop && out.world == meaning.0 && SameBelow(cfg.regs, out.regs, base)
      && base + |meaning.1| <= |out.regs| && out.regs[base..base + |meaning.1|] == meaning.1
  }

  function WithNils(result: (World, Value), count: nat): (r: (World, seq<Value>))
    ensures |r.1| == 1 + count
  {
    (result.0, [result.1] + seq(count, _ => NIL))
  }

  /** The last value of a shorter list, with nils after it. */
  lemma {:induction false} LastValueRuns(c: Context, s: Builder, e: Expr, count: nat, s1: Builder, s2: Builder, t: Builder,
                                         vm: Vm, cur: Env, cfg: Config)
    requires 2 <= count && AllocReg(s, count) == Ok(s1) && ExprCode(c, s1, e, s.regTop, true) == Ok(s2)
    requires t == LoadNils(s2, s.regTop + 1, count - 1)
    requires Placed(vm, s, t) && Ready(c, cur, s, cfg, t.stackSize) && Sound(c, vm.host, cur, e)
    ensures Follow(vm, cfg, |t.insns|, s.regTop, WithNils(Eval(vm.host, cur, e, cfg.world), count - 1))
  {
    PlacedPrefix(vm, s1, s2, t);
    ExprCorrect(c, s1, e, s.regTop, true, vm, cur, cfg);
    NilsAfter(s2, s.regTop, count, s1.regTop, vm, cfg, Eval(vm.host, cur, e, cfg.world));
  }

  lemma NilsAfter(s: Builder, base: nat, count: nat, top: nat, vm: Vm, cfg: Config, result: (World, Value))
    requires 1 <= count && base + count <= top && top <= |cfg.regs| && Computes(vm, cfg, |s.insns|, base, top, result)
    requires Placed(vm, s, LoadNils(s, base + 1, count - 1))
    ensures Follow(vm, cfg, |LoadNils(s, base + 1, count - 1).insns|, base, WithNils(result, count - 1))
  {
    LoadNilsCorrect(s, base + 1, count - 1, vm, Run(vm, cfg, |s.insns|).value);
    RunThen(vm, cfg, |s.insns|, |LoadNils(s, base + 1, count - 1).insns|);
  }

  lemma LastValueMeaning(h: Host, env: Env, values: seq<Expr>, i: nat, targets: nat, w: World)
    requires i + 1 == |values| < targets
    ensures ValuesFrom(h, env, values, i, targets, w) == WithNils(Eval(h, env, values[i], w), targets - i - 1)
  {
    var (w1, v) := Eval(h, env, values[i], w);
    assert values[i..|values|] == [values[i]];
    assert EvalList(h, env, [values[i]], w) == (w1, [v]) by {
      assert [values[i]][1..] == [] && [v] + [] == [v];
    }
  }

  lemma ConsecutiveCollected(lvs: seq<LValue>, i: nat, regs: seq<nat>, vs: seq<Value>, file: seq<Value>, base: nat)
    requires i <= |lvs| && |regs| == |vs| == |lvs| - i && base + |regs| <= |file| && file[base..base + |regs|] == vs
    requires forall k :: 0 <= k < |regs| ==> regs[k] == base + k
    ensures Collected(lvs, i, regs, vs, file)
  {
    forall k | 0 <= k < |regs|
      ensures file[regs[k]] == vs[k]
    {
      assert file[base..base + |regs|][k] == vs[k];
    }
  }

  lemma ConsecutiveSeparate(c: Context, lvs: seq<LValue>, i: nat, regs: seq<nat>, base: nat)
    requires i <= |lvs| && |regs| == |lvs| - i
    requires forall k :: 0 <= k < |regs| ==> regs[k] == base + k
    requires forall l <- c.locals :: c.locals[l] < base
    requires forall k :: 0 <= k < |lvs| && lvs[k].LvLocal? ==> lvs[k].reg in c.locals.Values
    ensures Separate(c, lvs, i, regs)
  {
    forall k | 0 <= k < |regs|
      ensures regs[k] !in c.locals.Values
    {
    }
  }

  lemma {:induction false} LastValueEnds(c: Context, values: seq<Expr>, i: nat, targets: nat, vm: Vm, env: Env,
                                         s: Builder, s1: Builder, s2: Builder, cfg: Config, t: Builder)
    requires i + 1 == |values| < targets && AllocReg(s, targets - i) == Ok(s1)
    requires ExprCode(c, s1, values[i], s.regTop, true) == Ok(s2) && t == LoadNils(s2, s.regTop + 1, targets - i - 1)
    requires Placed(vm, s, t) && Roomy(c, env, s, cfg, t.stackSize) && Unspoiled(c, env, values, i, cfg.regs)
    requires Sound(c, vm.host, env, values[i])
    ensures Follow(vm, cfg, |t.insns|, s.regTop, ValuesFrom(vm.host, env, values, i, targets, cfg.world))
  {
    CurrentReady(c, env, s, cfg, t.stackSize, values, i, vm.host);
    LastValueRuns(c, s, values[i], targets - i, s1, s2, t, vm, Current(c, env, cfg.regs), cfg);
    LastValueMeaning(vm.host, env, values, i, targets, cfg.world);
  }

  lemma {:induction false} LastValueCorrect(c: Context, lvs: seq<LValue>, conflict: seq<Option<nat>>, values: seq<Expr>, lo: nat, i: nat,
                                            regs: seq<nat>, vm: Vm, env: Env, s: Builder, cfg: Config, t: Builder)
    requires |lvs| == |conflict| && i + 1 == |values| < |lvs| && Fits(|lvs|, |values|)
    requires ValuesCode(c, s, lvs, conflict, values, i) == Ok((t, regs))
    requires Placed(vm, s, t) && Computing(c, lvs, conflict, values, lo, i, vm, env, s, cfg, t.stackSize)
    ensures ValuesDone(c, lvs, conflict, values, i, regs, vm, env, s, cfg, t)
  {
    var s2 := LastValueCode(c, s, lvs, conflict, values, i, regs, t);
    LastValueEnds(c, values, i, |lvs|, vm, env, s, AllocReg(s, |lvs| - i).value, s2, cfg, t);
    LastValueDone(c, lvs, conflict, values, i, regs, vm, env, s, cfg, t);
  }

  lemma LastValueDone(c: Context, lvs: seq<LValue>, conflict: seq<Option<nat>>, values: seq<Expr>, i: nat,
                      regs: seq<nat>, vm: Vm, env: Env, s: Builder, cfg: Config, t: Builder)
    requires |lvs| == |conflict| && i + 1 == |values| < |lvs| && |regs| == |lvs| - i
    requires t.regTop == s.regTop + |regs| <= t.stackSize
    requires forall k :: 0 <= k < |regs| ==> regs[k] == s.regTop + k
    requires Roomy(c, env, s, cfg, t.stackSize)
    requires forall k :: 0 <= k < |lvs| && lvs[k].LvLocal? ==> lvs[k].reg in c.locals.Values
    requires Follow(vm, cfg, |t.insns|, s.regTop, ValuesFrom(vm.host, env, values, i, |lvs|, cfg.world))
    ensures ValuesDone(c, lvs, conflict, values, i, regs, vm, env, s, cfg, t)
  {
    var out := Run(vm, cfg, |t.insns|).value;
    ConsecutiveCollected(lvs, i, regs, ValuesFrom(vm.host, env, values, i, |lvs|, cfg.world).1, out.regs, s.regTop);
    ConsecutiveSeparate(c, lvs, i, regs, s.regTop);
  }

  /** Unfolds the code of the last value; `count` is what the byte holds. */
  lemma LastValueUnfolds(c: Context, s: Builder, lvs: seq<LValue>, conflict: seq<Option<nat>>, values: seq<Expr>, i: nat, count: nat,
                         regs: seq<nat>, t: Builder) returns (s1: Builder, s2: Builder)
    requires |lvs| == |conflict| && i + 1 == |values| < |lvs| && count == (|lvs| - |values| + 1) % BYTE && count > 0
    requires ValuesCode(c, s, lvs, conflict, values, i) == Ok((t, regs))
    ensures AllocReg(s, count) == Ok(s1) && ExprCode(c, s1, values[i], s.regTop, true) == Ok(s2)
    ensures t == LoadNils(s2, s.regTop + 1, count - 1) && regs == seq(|lvs| - i, (k: nat) => (s.regTop + k) % BYTE)
  {
    s1 := AllocReg(s, count).value;
    s2 := ExprCode(c, s1, values[i], s.regTop, true).value;
  }

  /** When the registers fit a byte, they are consecutive. */
  lemma {:induction false} LastValueCode(c: Context, s: Builder, lvs: seq<LValue>, conflict: seq<Option<nat>>, values: seq<Expr>, i: nat,
                                         regs: seq<nat>, t: Builder) returns (s2: Builder)
    requires |lvs| == |conflict| && i + 1 == |values| < |lvs| && Fits(|lvs|, |values|)
    requires ValuesCode(c, s, lvs, conflict, values, i) == Ok((t, regs))
    ensures AllocReg(s, |lvs| - i).Ok? && ExprCode(c, AllocReg(s, |lvs| - i).value, values[i], s.regTop, true) == Ok(s2)
    ensures t == LoadNils(s2, s.regTop + 1, |lvs| - i - 1) && t.regTop == s.regTop + |regs| <= MAX_REGISTERS
    ensures |regs| == |lvs| - i && forall k :: 0 <= k < |regs| ==> regs[k] == s.regTop + k
  {
    var count := |lvs| - i;
    var s1;
    s1, s2 := LastValueUnfolds(c, s, lvs, conflict, values, i, count, regs, t);
    assert s1.regTop == s.regTop + count <= MAX_REGISTERS;
    assert forall k :: 0 <= k < |regs| ==> regs[k] == (s.regTop + k) % BYTE;
  }

  lemma NoValuesCorrect(c: Context, lvs: seq<LValue>, conflict: seq<Option<nat>>, values: seq<Expr>, lo: nat,
                        regs: seq<nat>, vm: Vm, env: Env, s: Builder, cfg: Config, t: Builder)
    requires |lvs| == |conflict| <= |values| && t == s && regs == []
    requires Computing(c, lvs, conflict, values, lo, |lvs|, vm, env, s, cfg, t.stackSize)
    ensures ValuesDone(c, lvs, conflict, values, |lvs|, regs, vm, env, s, cfg, t)
  {
    assert values[|lvs|..|lvs|] == [];
  }

  /** One value, and those that follow it. */
  lemma ValuesUnfold(c: Context, s: Builder, lvs: seq<LValue>, conflict: seq<Option<nat>>, values: seq<Expr>, i: nat,
                     regs: seq<nat>, t: Builder) returns (s1: Builder, r: nat)
    requires |lvs| == |conflict| && i < |lvs| && i < |values| && !(i + 1 == |values| && |lvs| > |values|)
    requires ValuesCode(c, s, lvs, conflict, values, i) == Ok((t, regs))
    ensures ValueCode(c, s, TargetReg(lvs, conflict, i), values[i]) == Ok((s1, r))
    ensures Grows(s, s1) && Grows(s1, t) && s.regTop <= s1.regTop <= t.regTop
    ensures regs == [r] + regs[1..] && ValuesCode(c, s1, lvs, conflict, values, i + 1) == Ok((t, regs[1..]))
  {
    s1, r := ValueCode(c, s, TargetReg(lvs, conflict, i), values[i]).value.0, ValueCode(c, s, TargetReg(lvs, conflict, i), values[i]).value.1;
  }

  /** The size of the frame matters only as far as it has to hold the registers. */
  lemma Framed(c: Context, lvs: seq<LValue>, conflict: seq<Option<nat>>, values: seq<Expr>, lo: nat, i: nat,
               vm: Vm, env: Env, s: Builder, cfg: Config, small: nat, frame: nat)
    requires s.stackSize <= small <= frame <= |cfg.regs|
    ensures Computing(c, lvs, conflict, values, lo, i, vm, env, s, cfg, small) == Computing(c, lvs, conflict, values, lo, i, vm, env, s, cfg, frame)
  {
  }

  lemma {:induction false} ValuesCorrect(c: Context, lvs: seq<LValue>, conflict: seq<Option<nat>>, values: seq<Expr>, lo: nat, i: nat,
                                         regs: seq<nat>, vm: Vm, env: Env, s: Builder, cfg: Config, t: Builder)
    requires |lvs| == |conflict| && i <= |lvs| && i <= |values| && Fits(|lvs|, |values|) && (i == |lvs| || i < |values|)
    requires ValuesCode(c, s, lvs, conflict, values, i) == Ok((t, regs))
    requires Placed(vm, s, t) && Computing(c, lvs, conflict, values, lo, i, vm, env, s, cfg, t.stackSize)
    ensures ValuesDone(c, lvs, conflict, values, i, regs, vm, env, s, cfg, t)
    decreases |values| - i
  {
    if i == |lvs| {
      NoValuesCorrect(c, lvs, conflict, values, lo, regs, vm, env, s, cfg, t);
    } else if i + 1 == |values| && |lvs| > |values| {
      LastValueCorrect(c, lvs, conflict, values, lo, i, regs, vm, env, s, cfg, t);
    } else {
      var s1, r := ValuesUnfold(c, s, lvs, conflict, values, i, regs, t);
      PlacedPrefix(vm, s, s1, t);
      Framed(c, lvs, conflict, values, lo, i, vm, env, s, cfg, s1.stackSize, t.stackSize);
      ValueCorrect(c, lvs, conflict, values, lo, i, vm, env, s, cfg, s1, r);
      var mid := Run(vm, cfg, |s1.insns|).value;
      Framed(c, lvs, conflict, values, lo, i + 1, vm, env, s1, mid, s1.stackSize, t.stackSize);
      ValuesCorrect(c, lvs, conflict, values, lo, i + 1, regs[1..], vm, env, s1, mid, t);
      ValuesCons(c, lvs, conflict, values, lo, i, r, regs, vm, env, s, cfg, s1, t);
    }
  }

  lemma ValuesFromCons(h: Host, env: Env, values: seq<Expr>, i: nat, targets: nat, w: World)
    requires i < targets && i < |values|
    ensures
      var (w1, v) := Eval(h, env, values[i], w);
      var (w2, vs) := ValuesFrom(h, env, values, i + 1, targets, w1);
      ValuesFrom(h, env, values, i, targets, w) == (w2, [v] + vs)
  {
    var n := Smaller(targets, |values|);
    assert values[i..n][1..] == values[i + 1..n];
    var (w1, v) := Eval(h, env, values[i], w);
    var (w2, ws) := EvalList(h, env, values[i + 1..n], w1);
    assert Padded([v] + ws, targets - i) == [v] + Padded(ws, targets - i - 1);
  }

  /** The register of a value is not written again before the stores. */
  lemma ValueStays(c: Context, lvs: seq<LValue>, conflict: seq<Option<nat>>, values: seq<Expr>, lo: nat, i: nat,
                   r: nat, s: Builder, s1: Builder, regs: seq<nat>)
    requires |lvs| == |conflict| && i < |lvs| && i < |values| && |regs| == |lvs| - i && regs[0] == r
    requires ValueCode(c, s, TargetReg(lvs, conflict, i), values[i]) == Ok((s1, r))
    requires Resolved(c, lvs, values, conflict, 0, lo, s.regTop) && forall l <- c.locals :: c.locals[l] < lo <= s.regTop
    requires forall k :: 0 <= k < |lvs| && lvs[k].LvLocal? ==> lvs[k].reg in c.locals.Values
    requires AtHome(lvs, conflict, i + 1, EarlyCount(|lvs|, |values|), regs[1..], s1.regTop)
    requires !lvs[i].LvLocal? || forall j :: 0 < j < |regs| && lvs[i + j].LvLocal? ==> regs[j] != r
    ensures NotTargeted(lvs, conflict, i + 1, EarlyCount(|lvs|, |values|), r)
  {
    var n := EarlyCount(|lvs|, |values|);
    forall k | i + 1 <= k < n
      ensures TargetReg(lvs, conflict, k) != Some(r)
    {
      if !lvs[i].LvLocal? {
        LazyIsSafe(c, lvs, values, i, k, s, s1, r, lo, conflict);
      } else if lvs[k].LvLocal? {
        assert lvs[i + (k - i)].LvLocal? && regs[1..][k - i - 1] == regs[k - i];
        assert Some(regs[1..][k - i - 1]) == TargetReg(lvs, conflict, i + 1 + (k - i - 1));
      }
    }
  }

  /** A local whose register is read lazily is not written early: it is in conflict. */
  lemma {:induction false} LazyIsSafe(c: Context, lvs: seq<LValue>, values: seq<Expr>, i: nat, k: nat, s: Builder, s1: Builder, r: nat,
                                      lo: nat, conflict: seq<Option<nat>>)
    requires |lvs| == |conflict| && i < |lvs| && i < |values| && i < k < |lvs| && !lvs[i].LvLocal?
    requires AutoCode(c, s, values[i]) == Ok((s1, r))
    requires Resolved(c, lvs, values, conflict, 0, lo, s.regTop) && forall l <- c.locals :: c.locals[l] < lo <= s.regTop
    requires lvs[k].LvLocal? ==> lvs[k].reg in c.locals.Values
    ensures TargetReg(lvs, conflict, k) != Some(r)
  {
    if LocalReg(c, values[i]).Some? {
      LocalRegReads(c, values[i]);
      if lvs[k] == LvLocal(r) {
        assert AssignedBefore(lvs, |lvs|, r);
      }
    }
  }

  lemma {:induction false} LocalRegReads(c: Context, e: Expr)
    requires LocalReg(c, e).Some?
    ensures Reads(c, e, LocalReg(c, e).value) && LocalReg(c, e).value in c.locals.Values
  {
    match e
    case Group(x) => LocalRegReads(c, x);
    case Local(l) => assert l in c.locals;
    case _ =>
  }

  lemma AtHomeCons(lvs: seq<LValue>, conflict: seq<Option<nat>>, i: nat, n: nat, hi: nat, top: nat, regs: seq<nat>)
    requires |lvs| == |conflict| && i < |lvs| && |regs| == |lvs| - i && hi <= top
    requires lvs[i].LvLocal? ==> Some(regs[0]) == TargetReg(lvs, conflict, i)
    requires AtHome(lvs, conflict, i + 1, n, regs[1..], top)
    ensures AtHome(lvs, conflict, i, n, regs, hi)
    ensures forall k :: 0 < k < |regs| && lvs[i + k].LvLocal? ==>
              Some(regs[k]) == TargetReg(lvs, conflict, i + k) || (n <= i + k && top <= regs[k])
  {
    forall k | 0 < k < |regs|
      ensures lvs[i + k].LvLocal? ==> Some(regs[k]) == TargetReg(lvs, conflict, i + k) || (n <= i + k && top <= regs[k])
    {
      assert regs[1..][k - 1] == regs[k] && lvs[i + 1 + (k - 1)] == lvs[i + k];
    }
  }

  /** The first of the targets, and a later one. */
  lemma FirstApart(c: Context, lvs: seq<LValue>, conflict: seq<Option<nat>>, values: seq<Expr>, lo: nat, hi: nat, i: nat, m: nat, ri: nat, rm: nat)
    requires |lvs| == |conflict| && i < m < |lvs|
    requires lvs[i].LvLocal? ==> Some(ri) == TargetReg(lvs, conflict, i)
    requires lvs[m].LvLocal? ==> Some(rm) == TargetReg(lvs, conflict, m) || hi <= rm
    requires lvs[m].LvLocal? ==> rm == lvs[m].reg || rm !in c.locals.Values
    requires Resolved(c, lvs, values, conflict, 0, lo, hi) && forall l <- c.locals :: c.locals[l] < lo
    requires forall k :: 0 <= k < |lvs| && lvs[k].LvLocal? ==> lvs[k].reg in c.locals.Values
    ensures Apart(lvs[i], lvs[m], ri, rm)
  {
  }

  lemma RestApart(c: Context, lvs: seq<LValue>, i: nat, regs: seq<nat>, j: nat, k: nat)
    requires i < |lvs| && |regs| == |lvs| - i && Separate(c, lvs, i + 1, regs[1..]) && 0 < j < k < |regs|
    ensures Apart(lvs[i + j], lvs[i + k], regs[j], regs[k])
  {
    assert regs[1..][j - 1] == regs[j] && regs[1..][k - 1] == regs[k];
    assert lvs[i + 1 + (j - 1)] == lvs[i + j] && lvs[i + 1 + (k - 1)] == lvs[i + k];
  }

  lemma RestAside(c: Context, lvs: seq<LValue>, i: nat, regs: seq<nat>, k: nat)
    requires i < |lvs| && |regs| == |lvs| - i && Separate(c, lvs, i + 1, regs[1..]) && 0 < k < |regs|
    ensures lvs[i + k].LvLocal? ==> regs[k] == lvs[i + k].reg || regs[k] !in c.locals.Values
  {
    assert regs[1..][k - 1] == regs[k] && lvs[i + 1 + (k - 1)] == lvs[i + k];
  }

  lemma SeparateCons(c: Context, lvs: seq<LValue>, conflict: seq<Option<nat>>, values: seq<Expr>, lo: nat, i: nat, n: nat, hi: nat, top: nat,
                     regs: seq<nat>)
    requires |lvs| == |conflict| && i < |lvs| && |regs| == |lvs| - i && hi <= top
    requires lvs[i].LvLocal? ==> Some(regs[0]) == TargetReg(lvs, conflict, i)
    requires Resolved(c, lvs, values, conflict, 0, lo, hi) && forall l <- c.locals :: c.locals[l] < lo
    requires forall k :: 0 <= k < |lvs| && lvs[k].LvLocal? ==> lvs[k].reg in c.locals.Values
    requires AtHome(lvs, conflict, i + 1, n, regs[1..], top) && Separate(c, lvs, i + 1, regs[1..])
    ensures AtHome(lvs, conflict, i, n, regs, hi) && Separate(c, lvs, i, regs)
  {
    AtHomeCons(lvs, conflict, i, n, hi, top, regs);
    forall k | 0 < k < |regs|
      ensures lvs[i + k].LvLocal? ==> regs[k] == lvs[i + k].reg || regs[k] !in c.locals.Values
    {
      RestAside(c, lvs, i, regs, k);
    }
    forall j, k | 0 <= j < k < |regs|
      ensures Apart(lvs[i + j], lvs[i + k], regs[j], regs[k])
    {
      if j == 0 {
        FirstApart(c, lvs, conflict, values, lo, hi, i, i + k, regs[0], regs[k]);
      } else {
        RestApart(c, lvs, i, regs, j, k);
      }
    }
  }

  lemma CollectedCons(lvs: seq<LValue>, i: nat, regs: seq<nat>, v: Value, vs: seq<Value>, file: seq<Value>)
    requires i < |lvs| && regs != [] && Collected(lvs, i + 1, regs[1..], vs, file) && regs[0] < |file|
    requires (!lvs[i].LvLocal? || forall j :: 0 < j < |regs| && lvs[i + j].LvLocal? ==> regs[j] != regs[0]) ==> file[regs[0]] == v
    ensures Collected(lvs, i, regs, [v] + vs, file)
  {
    forall k | 0 < k < |regs|
      ensures regs[k] < |file|
      ensures (!lvs[i + k].LvLocal? || forall j :: k < j < |regs| && lvs[i + j].LvLocal? ==> regs[j] != regs[k])
              ==> file[regs[k]] == ([v] + vs)[k]
    {
      assert regs[1..][k - 1] == regs[k] && lvs[i + 1 + (k - 1)] == lvs[i + k];
      if !lvs[i + k].LvLocal? || forall j :: k < j < |regs| && lvs[i + j].LvLocal? ==> regs[j] != regs[k] {
        forall j | k - 1 < j < |regs[1..]| && lvs[i + 1 + j].LvLocal?
          ensures lvs[i + k].LvLocal? ==> regs[1..][j] != regs[1..][k - 1]
        {
          assert regs[1..][j] == regs[j + 1] && lvs[i + (j + 1)] == lvs[i + 1 + j];
        }
      }
    }
  }

  lemma ValuesCons(c: Context, lvs: seq<LValue>, conflict: seq<Option<nat>>, values: seq<Expr>, lo: nat, i: nat,
                   r: nat, regs: seq<nat>, vm: Vm, env: Env, s: Builder, cfg: Config, s1: Builder, t: Builder)
    requires |lvs| == |conflict| && i < EarlyCount(|lvs|, |values|) && |regs| == |lvs| - i && regs[0] == r
    requires ValueCode(c, s, TargetReg(lvs, conflict, i), values[i]) == Ok((s1, r)) && Grows(s1, t) && s1.regTop <= t.regTop
    requires Resolved(c, lvs, values, conflict, 0, lo, s.regTop) && forall l <- c.locals :: c.locals[l] < lo <= s.regTop
    requires forall k :: 0 <= k < |lvs| && lvs[k].LvLocal? ==> lvs[k].reg in c.locals.Values
    requires r < s1.regTop && s.regTop <= s1.regTop
    requires
      match Run(vm, cfg, |s1.insns|)
      case None => false
      case Some(mid) =>
        var (w, v) := Eval(vm.host, env, values[i], cfg.world);
        && mid.world == w && |mid.regs| == |cfg.regs| && r < |mid.regs| && mid.regs[r] == v
        && (forall q :: 0 <= q < s.regTop && q < |cfg.regs| && TargetReg(lvs, conflict, i) != Some(q) ==> mid.regs[q] == cfg.regs[q])
        && ValuesDone(c, lvs, conflict, values, i + 1, regs[1..], vm, env, s1, mid, t)
    ensures ValuesDone(c, lvs, conflict, values, i, regs, vm, env, s, cfg, t)
  {
    RunThen(vm, cfg, |s1.insns|, |t.insns|);
    var mid, out := Run(vm, cfg, |s1.insns|).value, Run(vm, cfg, |t.insns|).value;
    var n := EarlyCount(|lvs|, |values|);
    var (w, v) := Eval(vm.host, env, values[i], cfg.world);
    var (w', vs) := ValuesFrom(vm.host, env, values, i + 1, |lvs|, w);
    ValuesFromCons(vm.host, env, values, i, |lvs|, cfg.world);
    forall q | 0 <= q < s.regTop && q < |cfg.regs| && NotTargeted(lvs, conflict, i, n, q)
      ensures out.regs[q] == cfg.regs[q]
    {
      assert NotTargeted(lvs, conflict, i + 1, n, q);
    }
    if !lvs[i].LvLocal? || forall j :: 0 < j < |regs| && lvs[i + j].LvLocal? ==> regs[j] != r {
      ValueStays(c, lvs, conflict, values, lo, i, r, s, s1, regs);
    }
    CollectedCons(lvs, i, regs, v, vs, out.regs);
    SeparateCons(c, lvs, conflict, values, lo, i, n, s.regTop, s1.regTop, regs);
    forall k | 0 <= k < |regs| ensures regs[k] < t.regTop {
      if k > 0 { assert regs[1..][k - 1] == regs[k]; }
    }
  }

  // ----- values beyond the targets -----

  lemma {:induction false} SidesCorrect(c: Context, s: Builder, es: seq<Expr>, t: Builder, vm: Vm, env: Env, cfg: Config)
    requires SidesCode(c, s, es) == Ok(t) && Placed(vm, s, t) && AllSound(c, vm.host, env, es)
    requires Roomy(c, env, s, cfg, t.stackSize) && Unspoiled(c, env, es, 0, cfg.regs)
    ensures Preserves(vm, cfg, |t.insns|, s.regTop, EvalSides(c, vm.host, env, es, cfg.world))
    decreases |es|
  {
    if es != [] {
      assert Unspoiled(c, env, es[1..], 0, cfg.regs);
      if NoEffect(c, es[0]) {
        SidesCorrect(c, s, es[1..], t, vm, env, cfg);
      } else {
        var (s1, r) := AutoCode(c, s, es[0]).value;
        var s2 := s1.(regTop := s.regTop);
        PlacedPrefix(vm, s, s1, t);
        CurrentReady(c, env, s, cfg, t.stackSize, es, 0, vm.host);
        AutoCorrect(c, s, es[0], vm, Current(c, env, cfg.regs), cfg);
        var mid := Run(vm, cfg, |s1.insns|).value;
        forall k, l | 0 <= k < |es[1..]| && l in c.locals && Mentions(es[1..][k], l)
          ensures c.locals[l] < |mid.regs| && mid.regs[c.locals[l]] == env[l]
        {
          assert es[k + 1] == es[1..][k];
        }
        SidesCorrect(c, s2, es[1..], t, vm, env, mid);
        PreservesThen(vm, cfg, |s1.insns|, |t.insns|, s.regTop, s.regTop, mid.world, EvalSides(c, vm.host, env, es[1..], mid.world));
      }
    }
  }

  // ----- stores -----

  lemma StoreCorrect(c: Context, s: Builder, lv: LValue, source: nat, t: Builder, p: Place, vm: Vm, cfg: Config)
    requires !lv.LvLocal? && StoreCode(s, lv, source) == Ok(t) && Placed(vm, s, t) && cfg.pc == |s.insns|
    requires Denotes(c, lv, p, cfg.regs) && source < |cfg.regs|
    ensures Run(vm, cfg, |t.insns|) == Some(Config(|t.insns|, cfg.regs, StorePlaces(vm.host, [p], [cfg.regs[source]], cfg.world)))
  {
    var n := cfg.pc;
    assert vm.code[n] == t.insns[n];
    if |t.insns| == n + 2 {
      assert vm.code[n + 1] == t.insns[n + 1];
    }
    RunOne(vm, cfg, |t.insns|);
  }

  lemma {:induction false} StoresCorrect(c: Context, s: Builder, lvs: seq<LValue>, regs: seq<nat>, ps: seq<Place>, vs: seq<Value>,
                                         t: Builder, vm: Vm, cfg: Config)
    requires |lvs| == |regs| == |ps| == |vs| && StoresCode(s, lvs, regs) == Ok(t)
    requires Placed(vm, s, t) && cfg.pc == |s.insns|
    requires forall i :: 0 <= i < |lvs| ==>
      Denotes(c, lvs[i], ps[i], cfg.regs) && (!lvs[i].LvLocal? ==> regs[i] < |cfg.regs| && cfg.regs[regs[i]] == vs[i])
    ensures Run(vm, cfg, |t.insns|) == Some(Config(|t.insns|, cfg.regs, StorePlaces(vm.host, ps, vs, cfg.world)))
    decreases |lvs|
  {
    if lvs != [] {
      var s1 := if lvs[0].LvLocal? then s else StoreCode(s, lvs[0], regs[0]).value;
      PlacedPrefix(vm, s, s1, t);
      var mid := cfg;
      if !lvs[0].LvLocal? {
        StoreCorrect(c, s, lvs[0], regs[0], s1, ps[0], vm, cfg);
        mid := Run(vm, cfg, |s1.insns|).value;
        RunThen(vm, cfg, |s1.insns|, |t.insns|);
      }
      StoresCorrect(c, s1, lvs[1..], regs[1..], ps[1..], vs[1..], t, vm, mid);
    }
  }

  // ----- moves -----

  /** The target gets its value by a move. */
  predicate Moved(lvs: seq<LValue>, regs: seq<nat>, k: nat)
    requires k < |lvs| == |regs|
  {
    lvs[k].LvLocal? && regs[k] != lvs[k].reg
  }

  /** No source of a move is the target of one. */
  ghost predicate MovesApart(lvs: seq<LValue>, regs: seq<nat>)
    requires |lvs| == |regs|
  {
    forall j, k :: 0 <= j < |lvs| && 0 <= k < |lvs| && Moved(lvs, regs, j) && Moved(lvs, regs, k) ==> regs[j] != lvs[k].reg
  }

  ghost predicate MovesInside(lvs: seq<LValue>, regs: seq<nat>, n: nat)
    requires |lvs| == |regs|
  {
    forall k :: 0 <= k < |lvs| && Moved(lvs, regs, k) ==> regs[k] < n && lvs[k].reg < n
  }

  ghost function ApplyMoves(lvs: seq<LValue>, regs: seq<nat>, file: seq<Value>): (r: seq<Value>)
    requires |lvs| == |regs| && MovesInside(lvs, regs, |file|)
    ensures |r| == |file|
    decreases |lvs|
  {
    if lvs == [] then file
    else
      assert forall k :: 0 <= k < |lvs[1..]| && Moved(lvs[1..], regs[1..], k) ==> Moved(lvs, regs, k + 1);
      assert Moved(lvs, regs, 0) ==> regs[0] < |file|;
      ApplyMoves(lvs[1..], regs[1..], if Moved(lvs, regs, 0) then file[lvs[0].reg := file[regs[0]]] else file)
  }

  lemma {:induction false} MovesCorrect(s: Builder, lvs: seq<LValue>, regs: seq<nat>, vm: Vm, cfg: Config)
    requires |lvs| == |regs| && Placed(vm, s, MovesCode(s, lvs, regs)) && cfg.pc == |s.insns|
    requires MovesInside(lvs, regs, |cfg.regs|)
    ensures
      var n := |MovesCode(s, lvs, regs).insns|;
      Run(vm, cfg, n) == Some(Config(n, ApplyMoves(lvs, regs, cfg.regs), cfg.world))
    decreases |lvs|
  {
    if lvs != [] {
      var t := MovesCode(s, lvs, regs);
      var mid, s1 := cfg, s;
      assert forall k :: 0 <= k < |lvs[1..]| && Moved(lvs[1..], regs[1..], k) ==> Moved(lvs, regs, k + 1);
      if Moved(lvs, regs, 0) {
        s1 := EmitABC(s, MOVE, lvs[0].reg, regs[0], 0);
        PlacedPrefix(vm, s, s1, t);
        assert vm.code[cfg.pc] == s1.insns[cfg.pc];
        RunOne(vm, cfg, |s1.insns|);
        RunThen(vm, cfg, |s1.insns|, |t.insns|);
        mid := Run(vm, cfg, |s1.insns|).value;
      }
      MovesCorrect(s1, lvs[1..], regs[1..], vm, mid);
    }
  }

  /** The last target that is moved into register `r`, if there is one. */
  ghost predicate LastMove(lvs: seq<LValue>, regs: seq<nat>, r: nat, m: Option<nat>)
    requires |lvs| == |regs|
  {
    && (m.Some? ==> m.value < |lvs| && Moved(lvs, regs, m.value) && lvs[m.value].reg == r)
    && forall k :: (if m.Some? then m.value < k else 0 <= k) && k < |lvs| && Moved(lvs, regs, k) ==> lvs[k].reg != r
  }

  /** The last move into a register decides what it holds. */
  lemma {:induction false} ApplyMovesAt(lvs: seq<LValue>, regs: seq<nat>, file: seq<Value>, r: nat, m: Option<nat>)
    requires |lvs| == |regs| && MovesInside(lvs, regs, |file|) && MovesApart(lvs, regs) && r < |file|
    requires LastMove(lvs, regs, r, m)
    ensures m.Some? ==> regs[m.value] < |file|
    ensures ApplyMoves(lvs, regs, file)[r] == if m.Some? then file[regs[m.value]] else file[r]
    decreases |lvs|
  {
    if lvs != [] {
      var tail, rest := lvs[1..], regs[1..];
      assert forall k :: 0 <= k < |tail| ==> (Moved(tail, rest, k) <==> Moved(lvs, regs, k + 1));
      var mid := if Moved(lvs, regs, 0) then file[lvs[0].reg := file[regs[0]]] else file;
      var m' := if m.Some? && m.value > 0 then Some(m.value - 1) else None;
      ApplyMovesAt(tail, rest, mid, r, m');
    }
  }

  // ----- the whole assignment -----

  /** An assigned local has its register to itself. */
  predicate OwnRegister(c: Context, e: Expr) {
    e.Local? && e.local in c.locals ==> forall l <- c.locals :: l != e.local ==> c.locals[l] != c.locals[e.local]
  }

  /** The environment after the assignment: every local has the last value stored into it. */
  function Stored(env: Env, ps: seq<Place>, vs: seq<Value>, l: LocalId): Value
    requires |ps| == |vs| && l in env
  {
    match LastStore(ps, vs, l)
    case Some(v) => v
    case None => env[l]
  }

  /** The assignment was executed: the world is the one it means, and so is every local. */
  ghost predicate Assigned(c: Context, vm: Vm, env: Env, s: Builder, cfg: Config, stop: nat, meaning: (World, seq<Place>, seq<Value>))
    requires |meaning.1| == |meaning.2|
  {
    match Run(vm, cfg, stop)
    case None => false
    case Some(out) =>
      && out.pc == stop && out.world == meaning.0 && |out.regs| == |cfg.regs|
      && (forall l <- c.locals :: l in env && c.locals[l] < |out.regs| && out.regs[c.locals[l]] == Stored(env, meaning.1, meaning.2, l))
      && (forall r :: 0 <= r < s.regTop && r < |out.regs| && r !in c.locals.Values ==> out.regs[r] == cfg.regs[r])
  }

  lemma {:induction false} LastStoreIndex(ps: seq<Place>, vs: seq<Value>, l: LocalId) returns (m: Option<nat>)
    requires |ps| == |vs|
    ensures match m
      case Some(k) => k < |ps| && ps[k] == ToLocal(l) && LastStore(ps, vs, l) == Some(vs[k])
                      && forall j :: k < j < |ps| ==> ps[j] != ToLocal(l)
      case None => LastStore(ps, vs, l) == None && forall j :: 0 <= j < |ps| ==> ps[j] != ToLocal(l)
    decreases |ps|
  {
    if ps == [] {
      m := None;
    } else if ps[|ps| - 1] == ToLocal(l) {
      m := Some(|ps| - 1);
    } else {
      m := LastStoreIndex(ps[..|ps| - 1], vs[..|vs| - 1], l);
    }
  }

  /** The places of the targets are the locals that the l-values name. */
  ghost predicate SamePlaces(c: Context, lvs: seq<LValue>, ps: seq<Place>, l: LocalId)
    requires |lvs| == |ps| && l in c.locals
  {
    forall k :: 0 <= k < |lvs| ==> (lvs[k] == LvLocal(c.locals[l]) <==> ps[k] == ToLocal(l))
  }

  lemma NotStored(lvs: seq<LValue>, conflict: seq<Option<nat>>, n: nat, lo: nat, regs: seq<nat>, before: seq<Value>, file: seq<Value>,
                  top: nat, r: nat)
    requires |lvs| == |conflict| == |regs| && n <= |lvs| && r < lo && r < top && r < |before|
    requires MovesInside(lvs, regs, |file|) && MovesApart(lvs, regs) && OnlyTargets(lvs, conflict, 0, n, before, file, top)
    requires forall k :: 0 <= k < |lvs| && conflict[k].Some? ==> lo <= conflict[k].value
    requires forall k :: 0 <= k < |lvs| ==> lvs[k] != LvLocal(r)
    ensures ApplyMoves(lvs, regs, file)[r] == before[r]
  {
    ApplyMovesAt(lvs, regs, file, r, None);
    assert NotTargeted(lvs, conflict, 0, n, r);
  }

  /** The last target that is the local in `r`; its value may have been computed in place. */
  lemma LastStored(c: Context, lvs: seq<LValue>, regs: seq<nat>, vs: seq<Value>, file: seq<Value>, r: nat, m: nat)
    requires |lvs| == |regs| == |vs| && m < |lvs| && lvs[m] == LvLocal(r) && r in c.locals.Values && r < |file|
    requires forall k :: m < k < |lvs| ==> lvs[k] != LvLocal(r)
    requires MovesInside(lvs, regs, |file|) && MovesApart(lvs, regs)
    requires forall k :: 0 <= k < |lvs| && lvs[k].LvLocal? ==> lvs[k].reg in c.locals.Values
    requires Collected(lvs, 0, regs, vs, file) && Separate(c, lvs, 0, regs)
    ensures ApplyMoves(lvs, regs, file)[r] == vs[m]
  {
    assert lvs[0 + m] == LvLocal(r);
    forall j | m < j < |regs| && lvs[0 + j].LvLocal?
      ensures regs[j] != regs[m]
    {
      assert lvs[0 + j] == lvs[j];
    }
    if Moved(lvs, regs, m) {
      ApplyMovesAt(lvs, regs, file, r, Some(m));
    } else {
      forall k | 0 <= k < |lvs| && Moved(lvs, regs, k)
        ensures lvs[k].reg != r
      {
        assert lvs[0 + k] == lvs[k];
      }
      ApplyMovesAt(lvs, regs, file, r, None);
    }
  }

  /** After values and moves, the register of a local holds the last value stored into the local. */
  lemma LocalStored(c: Context, env: Env, lvs: seq<LValue>, conflict: seq<Option<nat>>, n: nat, lo: nat, regs: seq<nat>, ps: seq<Place>, vs: seq<Value>,
                    before: seq<Value>, file: seq<Value>, top: nat, l: LocalId)
    requires |lvs| == |conflict| == |regs| == |ps| == |vs| && n <= |lvs|
    requires l in c.locals && l in env && c.locals[l] < lo && c.locals[l] < top && c.locals[l] < |before| && before[c.locals[l]] == env[l]
    requires SamePlaces(c, lvs, ps, l) && MovesInside(lvs, regs, |file|) && MovesApart(lvs, regs)
    requires forall k :: 0 <= k < |lvs| && lvs[k].LvLocal? ==> lvs[k].reg in c.locals.Values
    requires forall k :: 0 <= k < |lvs| && conflict[k].Some? ==> lo <= conflict[k].value
    requires OnlyTargets(lvs, conflict, 0, n, before, file, top)
    requires Collected(lvs, 0, regs, vs, file) && Separate(c, lvs, 0, regs)
    ensures ApplyMoves(lvs, regs, file)[c.locals[l]] == Stored(env, ps, vs, l)
  {
    var r := c.locals[l];
    var last := LastStoreIndex(ps, vs, l);
    match last
    case None =>
      NotStored(lvs, conflict, n, lo, regs, before, file, top, r);
    case Some(m) =>
      LastStored(c, lvs, regs, vs, file, r, m);
  }

  /** The operands of targets are still in place when everything is stored. */
  lemma DenotesAfter(c: Context, lvs: seq<LValue>, conflict: seq<Option<nat>>, values: seq<Expr>, ps: seq<Place>, lo: nat, hi: nat, n: nat,
                     before: seq<Value>, after: seq<Value>)
    requires |lvs| == |conflict| && n <= |lvs| && AllDenote(c, lvs, ps, before, lo) && lo <= hi && lo <= |before|
    requires Resolved(c, lvs, values, conflict, 0, lo, hi) && OnlyTargets(lvs, conflict, 0, n, before, after, hi)
    ensures forall i :: 0 <= i < |lvs| ==> Denotes(c, lvs[i], ps[i], after)
  {
    forall i, r: nat | 0 <= i < |lvs| && LValueReads(lvs[i], r)
      ensures r < |before| && after[r] == before[r]
    {
      assert Denotes(c, lvs[i], ps[i], before) && LvReady(c, lvs[i], lo);
      forall k | 0 <= k < n
        ensures TargetReg(lvs, conflict, k) != Some(r)
      {
        if lvs[k] == LvLocal(r) {
          assert AssignedBefore(lvs, |lvs|, r);
        }
      }
    }
    forall i | 0 <= i < |lvs|
      ensures Denotes(c, lvs[i], ps[i], after)
    {
      assert Denotes(c, lvs[i], ps[i], before);
      match lvs[i]
      case LvIndexName(r, _) => assert LValueReads(lvs[i], r);
      case LvIndexNumber(r, _) => assert LValueReads(lvs[i], r);
      case LvIndexExpr(r, q) => assert LValueReads(lvs[i], r) && LValueReads(lvs[i], q);
      case _ =>
    }
  }

  lemma SeparateMoves(c: Context, lvs: seq<LValue>, regs: seq<nat>, vs: seq<Value>, file: seq<Value>)
    requires |regs| == |lvs| && Separate(c, lvs, 0, regs) && Collected(lvs, 0, regs, vs, file)
    requires forall k :: 0 <= k < |lvs| && lvs[k].LvLocal? ==> lvs[k].reg in c.locals.Values && lvs[k].reg < |file|
    ensures MovesInside(lvs, regs, |file|) && MovesApart(lvs, regs)
  {
    forall k | 0 <= k < |lvs| && Moved(lvs, regs, k)
      ensures regs[k] < |file| && regs[k] !in c.locals.Values
    {
      assert lvs[0 + k] == lvs[k];
    }
  }

  /** The places of local targets, in terms of registers. */
  lemma {:induction false} PlacesOfLocals(c: Context, h: Host, env: Env, vars: seq<Expr>, lvs: seq<LValue>, regs: seq<Value>, top: nat, w: World, l: LocalId)
    requires forall e <- vars :: IsTarget(e) && OwnRegister(c, e)
    requires AllDenote(c, lvs, EvalPlaces(h, env, vars, w).1, regs, top) && l in c.locals
    ensures SamePlaces(c, lvs, EvalPlaces(h, env, vars, w).1, l)
  {
    var ps := EvalPlaces(h, env, vars, w).1;
    PlaceIsLocal(h, env, vars, w);
    forall k | 0 <= k < |lvs|
      ensures lvs[k] == LvLocal(c.locals[l]) <==> ps[k] == ToLocal(l)
    {
      assert Denotes(c, lvs[k], ps[k], regs);
      if ps[k].ToLocal? {
        assert vars[k] == Local(ps[k].local) && OwnRegister(c, vars[k]);
      }
    }
  }

  lemma {:induction false} PlaceIsLocal(h: Host, env: Env, vars: seq<Expr>, w: World)
    requires forall e <- vars :: IsTarget(e)
    ensures var ps := EvalPlaces(h, env, vars, w).1;
      forall k :: 0 <= k < |ps| && ps[k].ToLocal? ==> vars[k] == Local(ps[k].local)
    decreases |vars|
  {
    if vars != [] {
      var (w1, p) := EvalPlace(h, env, vars[0], w);
      PlaceIsLocal(h, env, vars[1..], w1);
      var rest := EvalPlaces(h, env, vars[1..], w1).1;
      forall k | 0 <= k < |vars| && ([p] + rest)[k].ToLocal?
        ensures vars[k] == Local(([p] + rest)[k].local)
      {
        if k > 0 { assert vars[1..][k - 1] == vars[k]; }
      }
    }
  }

  ghost predicate AssignReady(c: Context, vm: Vm, env: Env, vars: seq<Expr>, values: seq<Expr>, s: Builder, cfg: Config, t: Builder) {
    && values != [] && (forall e <- vars :: IsTarget(e) && OwnRegister(c, e) && SoundTarget(c, vm.host, env, e))
    && AllSound(c, vm.host, env, values)
    && Placed(vm, s, t) && Ready(c, env, s, cfg, t.stackSize)
  }

  /** Targets and values, up to the point where everything is computed and nothing but early locals
      is assigned. */
  lemma {:induction false} ComputePhase(c: Context, s: Builder, vars: seq<Expr>, values: seq<Expr>,
                                        s1: Builder, lvs: seq<LValue>, s2: Builder, conflict: seq<Option<nat>>,
                                        s3: Builder, regs: seq<nat>, vm: Vm, env: Env, cfg: Config) returns (mid: Config)
    requires AssignReady(c, vm, env, vars, values, s, cfg, s3) && Fits(|vars|, |values|)
    requires LValuesCode(c, s, vars) == Ok((s1, lvs)) && ConflictRegs(c, s1, lvs, values, 0) == Ok((s2, conflict))
    requires ValuesCode(c, s2, lvs, conflict, values, 0) == Ok((s3, regs))
    ensures
      var (w1, ps) := EvalPlaces(vm.host, env, vars, cfg.world);
      && Run(vm, cfg, |s1.insns|) == Some(mid) && mid.world == w1 && SameBelow(cfg.regs, mid.regs, s.regTop)
      && AllDenote(c, lvs, ps, mid.regs, s1.regTop) && Computing(c, lvs, conflict, values, s1.regTop, 0, vm, env, s2, mid, s3.stackSize)
      && ValuesDone(c, lvs, conflict, values, 0, regs, vm, env, s2, mid, s3)
      && Run(vm, cfg, |s3.insns|) == Run(vm, mid, |s3.insns|)
  {
    PlacedPrefix(vm, s, s1, s3);
    LValuesCorrect(c, s, vars, s1, lvs, vm, env, cfg);
    mid := Run(vm, cfg, |s1.insns|).value;
    ConflictRegsResolve(c, s1, lvs, values, [], s2, conflict);
    assert [] + conflict == conflict;
    forall k | 0 <= k < |lvs| && lvs[k].LvLocal?
      ensures lvs[k].reg in c.locals.Values
    {
      assert LvReady(c, lvs[k], s1.regTop);
    }
    ValuesCorrect(c, lvs, conflict, values, s1.regTop, 0, regs, vm, env, s2, mid, s3);
    RunThen(vm, cfg, |s1.insns|, |s3.insns|);
  }

  /** Surplus values, stores and moves. */
  lemma {:induction false} StorePhase(c: Context, lvs: seq<LValue>, values: seq<Expr>, regs: seq<nat>, ps: seq<Place>, vs: seq<Value>,
                                      s3: Builder, s4: Builder, s5: Builder, t: Builder, vm: Vm, env: Env, out: Config)
    requires |lvs| == |regs| == |ps| == |vs|
    requires SidesCode(c, s3, values[Smaller(|lvs|, |values|)..]) == Ok(s4) && StoresCode(s4, lvs, regs) == Ok(s5)
    requires t == MovesCode(s5, lvs, regs)
    requires Placed(vm, s3, t) && Roomy(c, env, s3, out, t.stackSize) && AllSound(c, vm.host, env, values)
    requires Unspoiled(c, env, values, |lvs|, out.regs)
    requires forall i :: 0 <= i < |lvs| ==> Denotes(c, lvs[i], ps[i], out.regs)
    requires Collected(lvs, 0, regs, vs, out.regs) && (forall k :: 0 <= k < |regs| ==> regs[k] < s3.regTop)
    requires forall i :: 0 <= i < |lvs| ==> LvReady(c, lvs[i], s3.regTop)
    requires MovesInside(lvs, regs, |out.regs|) && MovesApart(lvs, regs)
    ensures
      var w := EvalSides(c, vm.host, env, values[Smaller(|lvs|, |values|)..], out.world);
      match Run(vm, out, |t.insns|)
      case None => false
      case Some(end) =>
        && end.pc == |t.insns| && end.world == StorePlaces(vm.host, ps, vs, w)
        && exists file :: SameBelow(out.regs, file, s3.regTop) && MovesInside(lvs, regs, |file|) && end.regs == ApplyMoves(lvs, regs, file)
  {
    var rest := values[Smaller(|lvs|, |values|)..];
    PlacedPrefix(vm, s3, s4, t);
    PlacedPrefix(vm, s4, s5, t);
    SidesCorrect(c, s3, rest, s4, vm, env, out);
    var o4 := Run(vm, out, |s4.insns|).value;
    forall i | 0 <= i < |lvs|
      ensures Denotes(c, lvs[i], ps[i], o4.regs) && (!lvs[i].LvLocal? ==> regs[i] < |o4.regs| && o4.regs[regs[i]] == vs[i])
    {
      DenotesStays(c, lvs[i], ps[i], out.regs, o4.regs, s3.regTop, s3.regTop);
      assert lvs[0 + i] == lvs[i];
    }
    StoresCorrect(c, s4, lvs, regs, ps, vs, s5, vm, o4);
    RunThen(vm, out, |s4.insns|, |s5.insns|);
    var o5 := Run(vm, out, |s5.insns|).value;
    MovesCorrect(s5, lvs, regs, vm, o5);
    RunThen(vm, out, |s5.insns|, |t.insns|);
  }

  /** Registers that belong to no local survive the assignment. */
  lemma OthersStay(c: Context, lvs: seq<LValue>, conflict: seq<Option<nat>>, n: nat, lo: nat, hi: nat, regs: seq<nat>,
                   before: seq<Value>, file: seq<Value>, r: nat)
    requires |lvs| == |conflict| == |regs| && n <= |lvs| && r < lo <= hi && r < |before| && r !in c.locals.Values
    requires MovesInside(lvs, regs, |file|) && MovesApart(lvs, regs) && |before| == |file|
    requires forall k :: 0 <= k < |lvs| && lvs[k].LvLocal? ==> lvs[k].reg in c.locals.Values
    requires forall k :: 0 <= k < |lvs| && conflict[k].Some? ==> lo <= conflict[k].value
    requires OnlyTargets(lvs, conflict, 0, n, before, file, hi)
    ensures ApplyMoves(lvs, regs, file)[r] == before[r]
  {
    ApplyMovesAt(lvs, regs, file, r, None);
    assert NotTargeted(lvs, conflict, 0, n, r);
  }

  /** What the registers hold at the end, given what they held when everything was computed. */
  lemma FinalRegisters(c: Context, env: Env, vars: seq<Expr>, lvs: seq<LValue>, conflict: seq<Option<nat>>, values: seq<Expr>,
                       regs: seq<nat>, ps: seq<Place>, vs: seq<Value>, s: Builder, s1: Builder, hi: nat, top: nat,
                       start: seq<Value>, mid: seq<Value>, out: seq<Value>, file: seq<Value>)
    requires |lvs| == |conflict| == |regs| == |ps| == |vs| && s.regTop <= s1.regTop <= hi <= top
    requires forall l <- c.locals :: SamePlaces(c, lvs, ps, l)
    requires Resolved(c, lvs, values, conflict, 0, s1.regTop, hi)
    requires SameBelow(start, mid, s.regTop) && OnlyTargets(lvs, conflict, 0, EarlyCount(|lvs|, |values|), mid, out, hi)
    requires SameBelow(out, file, top) && (forall k :: 0 <= k < |regs| ==> regs[k] < top)
    requires Collected(lvs, 0, regs, vs, out) && Separate(c, lvs, 0, regs)
    requires forall k :: 0 <= k < |lvs| && lvs[k].LvLocal? ==> lvs[k].reg in c.locals.Values && lvs[k].reg < |file|
    requires forall l <- c.locals :: c.locals[l] < s.regTop && l in env && c.locals[l] < |start| && start[c.locals[l]] == env[l]
    requires MovesInside(lvs, regs, |file|)
    ensures |file| == |start|
    ensures forall l <- c.locals :: ApplyMoves(lvs, regs, file)[c.locals[l]] == Stored(env, ps, vs, l)
    ensures forall r :: 0 <= r < s.regTop && r < |start| && r !in c.locals.Values ==> ApplyMoves(lvs, regs, file)[r] == start[r]
  {
    var n := EarlyCount(|lvs|, |values|);
    assert Collected(lvs, 0, regs, vs, file);
    assert OnlyTargets(lvs, conflict, 0, n, mid, file, hi);
    SeparateMoves(c, lvs, regs, vs, file);
    forall l | l in c.locals
      ensures ApplyMoves(lvs, regs, file)[c.locals[l]] == Stored(env, ps, vs, l)
    {
      LocalStored(c, env, lvs, conflict, n, s1.regTop, regs, ps, vs, mid, file, hi, l);
    }
    forall r | 0 <= r < s.regTop && r < |start| && r !in c.locals.Values
      ensures ApplyMoves(lvs, regs, file)[r] == start[r]
    {
      OthersStay(c, lvs, conflict, n, s1.regTop, hi, regs, mid, file, r);
    }
  }

  /** Multiple assignment is simultaneous assignment. */
  /** The builders between the phases of an assignment, its places, and the registers of its values. */
  datatype Phases = Phases(s1: Builder, lvs: seq<LValue>, s2: Builder, conflict: seq<Option<nat>>, s3: Builder, regs: seq<nat>,
                           s4: Builder, s5: Builder)

  ghost predicate IsPhased(c: Context, s: Builder, vars: seq<Expr>, values: seq<Expr>, t: Builder, p: Phases)
    requires forall e <- vars :: IsTarget(e)
  {
    && LValuesCode(c, s, vars) == Ok((p.s1, p.lvs)) && ConflictRegs(c, p.s1, p.lvs, values, 0) == Ok((p.s2, p.conflict))
    && |p.lvs| == |p.conflict| && ValuesCode(c, p.s2, p.lvs, p.conflict, values, 0) == Ok((p.s3, p.regs)) && |p.regs| == |p.lvs|
    && SidesCode(c, p.s3, values[Smaller(|vars|, |values|)..]) == Ok(p.s4) && StoresCode(p.s4, p.lvs, p.regs) == Ok(p.s5)
    && t == MovesCode(p.s5, p.lvs, p.regs).(regTop := s.regTop)
    && Grows(s, p.s3) && Grows(p.s3, MovesCode(p.s5, p.lvs, p.regs)) && s.regTop <= p.s1.regTop <= p.s2.regTop <= p.s3.regTop
  }

  lemma MultiAssignPhases(c: Context, s: Builder, vars: seq<Expr>, values: seq<Expr>, t: Builder) returns (p: Phases)
    requires values != [] && (forall e <- vars :: IsTarget(e)) && MultiAssignCode(c, s, vars, values) == Ok(t)
    ensures IsPhased(c, s, vars, values, t, p)
  {
    var places := LValuesCode(c, s, vars).value;
    var moved := ConflictRegs(c, places.0, places.1, values, 0).value;
    var computed := ValuesCode(c, moved.0, places.1, moved.1, values, 0).value;
    var s4 := SidesCode(c, computed.0, values[Smaller(|vars|, |values|)..]).value;
    var s5 := StoresCode(s4, places.1, computed.1).value;
    p := Phases(places.0, places.1, moved.0, moved.1, computed.0, computed.1, s4, s5);
  }

  lemma {:induction false} MultiAssignCorrect(c: Context, s: Builder, vars: seq<Expr>, values: seq<Expr>, t: Builder, vm: Vm, env: Env, cfg: Config)
    requires values != [] && (forall e <- vars :: IsTarget(e)) && MultiAssignCode(c, s, vars, values) == Ok(t)
    requires AssignReady(c, vm, env, vars, values, s, cfg, t) && Fits(|vars|, |values|)
    ensures Assigned(c, vm, env, s, cfg, |t.insns|, EmittedMeaning(c, vm.host, env, vars, values, cfg.world))
  {
    var p := MultiAssignPhases(c, s, vars, values, t);
    PlacedPrefix(vm, s, p.s3, MovesCode(p.s5, p.lvs, p.regs));
    var mid := ComputePhase(c, s, vars, values, p.s1, p.lvs, p.s2, p.conflict, p.s3, p.regs, vm, env, cfg);
    RunThen(vm, cfg, |p.s3.insns|, |t.insns|);
    StoresAfter(c, vars, values, s, p.s1, p.lvs, p.s2, p.conflict, p.s3, p.regs, p.s4, p.s5, vm, env, cfg, mid);
  }

  lemma {:induction false} StoresAfter(c: Context, vars: seq<Expr>, values: seq<Expr>, s: Builder,
                                       s1: Builder, lvs: seq<LValue>, s2: Builder, conflict: seq<Option<nat>>,
                                       s3: Builder, regs: seq<nat>, s4: Builder, s5: Builder,
                                       vm: Vm, env: Env, cfg: Config, mid: Config)
    requires values != [] && (forall e <- vars :: IsTarget(e) && OwnRegister(c, e)) && |vars| == |lvs| == |conflict| == |regs|
    requires SidesCode(c, s3, values[Smaller(|vars|, |values|)..]) == Ok(s4) && StoresCode(s4, lvs, regs) == Ok(s5)
    requires
      var t := MovesCode(s5, lvs, regs);
      Placed(vm, s3, t) && Ready(c, env, s, cfg, t.stackSize) && s.regTop <= s1.regTop <= s2.regTop <= s3.regTop
    requires
      var (w1, ps) := EvalPlaces(vm.host, env, vars, cfg.world);
      && mid.world == w1 && SameBelow(cfg.regs, mid.regs, s.regTop) && AllDenote(c, lvs, ps, mid.regs, s1.regTop)
    requires Computing(c, lvs, conflict, values, s1.regTop, 0, vm, env, s2, mid, s3.stackSize)
    requires ValuesDone(c, lvs, conflict, values, 0, regs, vm, env, s2, mid, s3)
    requires Run(vm, cfg, |s3.insns|) == Run(vm, mid, |s3.insns|)
    requires
      var n := |MovesCode(s5, lvs, regs).insns|;
      Run(vm, cfg, n) == Run(vm, Run(vm, cfg, |s3.insns|).value, n)
    ensures Assigned(c, vm, env, s, cfg, |MovesCode(s5, lvs, regs).insns|, EmittedMeaning(c, vm.host, env, vars, values, cfg.world))
  {
    var t := MovesCode(s5, lvs, regs);
    var out := Run(vm, mid, |s3.insns|).value;
    var ps := EvalPlaces(vm.host, env, vars, cfg.world).1;
    var vs := ValuesFrom(vm.host, env, values, 0, |lvs|, mid.world).1;
    DenotesAfter(c, lvs, conflict, values, ps, s1.regTop, s2.regTop, EarlyCount(|lvs|, |values|), mid.regs, out.regs);
    forall i | 0 <= i < |lvs| ensures LvReady(c, lvs[i], s3.regTop) {
      assert LvReady(c, lvs[i], s1.regTop);
    }
    SeparateMoves(c, lvs, regs, vs, out.regs);
    StorePhase(c, lvs, values, regs, ps, vs, s3, s4, s5, t, vm, env, out);
    var end := Run(vm, out, |t.insns|).value;
    var file :| SameBelow(out.regs, file, s3.regTop) && MovesInside(lvs, regs, |file|) && end.regs == ApplyMoves(lvs, regs, file);
    forall l | l in c.locals ensures SamePlaces(c, lvs, ps, l) {
      PlacesOfLocals(c, vm.host, env, vars, lvs, mid.regs, s1.regTop, cfg.world, l);
    }
    FinalRegisters(c, env, vars, lvs, conflict, values, regs, ps, vs, s, s1, s2.regTop, s3.regTop, cfg.regs, mid.regs, out.regs, file);
  }

  lemma SingleMeaning(c: Context, h: Host, env: Env, x: Expr, e: Expr, w: World)
    requires IsTarget(x)
    ensures
      var (w1, p) := EvalPlace(h, env, x, w);
      var (w2, v) := Eval(h, env, e, w1);
      EmittedMeaning(c, h, env, [x], [e], w) == (StorePlaces(h, [p], [v], w2), [p], [v])
  {
    var (w1, p) := EvalPlace(h, env, x, w);
    var (w2, v) := Eval(h, env, e, w1);
    assert EvalPlaces(h, env, [x], w) == (w1, [p]) by {
      assert [x][1..] == [] && [p] + [] == [p];
    }
    assert [e][..1] == [e] && [e][1..] == [];
    assert EvalList(h, env, [e], w1) == (w2, [v]) by {
      assert [v] + [] == [v];
    }
    assert Padded([v], 1) == [v];
  }

  lemma {:induction false} SingleAssignCorrect(c: Context, s: Builder, x: Expr, e: Expr, t: Builder, vm: Vm, env: Env, cfg: Config)
    requires IsTarget(x) && SingleAssignCode(c, s, x, e) == Ok(t) && AssignReady(c, vm, env, [x], [e], s, cfg, t)
    ensures Assigned(c, vm, env, s, cfg, |t.insns|, EmittedMeaning(c, vm.host, env, [x], [e], cfg.world))
  {
    assert x in [x] && e in [e];
    SingleMeaning(c, vm.host, env, x, e, cfg.world);
    var (s1, lv) := LValueCode(c, s, x).value;
    if lv.LvLocal? {
      SingleLocalCorrect(c, s, x, e, t, vm, env, cfg);
    } else {
      var (s2, r) := AutoCode(c, s1, e).value;
      PlacedPrefix(vm, s, s1, t);
      PlacedPrefix(vm, s1, s2, t);
      LValueCorrect(c, s, x, s1, lv, vm, env, cfg);
      var mid := Run(vm, cfg, |s1.insns|).value;
      AutoCorrect(c, s1, e, vm, env, mid);
      SingleStoreCorrect(c, s, x, e, s1, lv, s2, r, t, vm, env, cfg, mid);
    }
  }

  lemma {:induction false} SingleLocalCorrect(c: Context, s: Builder, x: Expr, e: Expr, t: Builder, vm: Vm, env: Env, cfg: Config)
    requires x.Local? && x.local in c.locals && OwnRegister(c, x) && Sound(c, vm.host, env, e)
    requires ExprCode(c, s, e, c.locals[x.local], false).Ok?
    requires t == ExprCode(c, s, e, c.locals[x.local], false).value.(regTop := s.regTop)
    requires Placed(vm, s, t) && Ready(c, env, s, cfg, t.stackSize)
    ensures
      var (w, v) := Eval(vm.host, env, e, cfg.world);
      Assigned(c, vm, env, s, cfg, |t.insns|, (w, [ToLocal(x.local)], [v]))
  {
    ExprCorrect(c, s, e, c.locals[x.local], false, vm, env, cfg);
    var (w, v) := Eval(vm.host, env, e, cfg.world);
    forall l | l in c.locals
      ensures LastStore([ToLocal(x.local)], [v], l) == if l == x.local then Some(v) else None
    {
      assert [ToLocal(x.local)][..0] == [] && [v][..0] == [];
    }
  }

  lemma {:induction false} SingleStoreCorrect(c: Context, s: Builder, x: Expr, e: Expr, s1: Builder, lv: LValue, s2: Builder, r: nat, t: Builder,
                                              vm: Vm, env: Env, cfg: Config, mid: Config)
    requires IsTarget(x) && !lv.LvLocal? && s.regTop <= s1.regTop && Grows(s1, s2) && Placed(vm, s2, t)
    requires StoreCode(s2, lv, r).Ok? && t == StoreCode(s2, lv, r).value.(regTop := s.regTop) && |s1.insns| <= |s2.insns|
    requires Ready(c, env, s, cfg, t.stackSize) && Run(vm, cfg, |s1.insns|) == Some(mid)
    requires
      var (w1, p) := EvalPlace(vm.host, env, x, cfg.world);
      && mid.world == w1 && SameBelow(cfg.regs, mid.regs, s.regTop) && Denotes(c, lv, p, mid.regs) && LvReady(c, lv, s1.regTop)
      && Holds(vm, s1, s2, r, mid, Eval(vm.host, env, e, w1))
    ensures
      var (w1, p) := EvalPlace(vm.host, env, x, cfg.world);
      var (w2, v) := Eval(vm.host, env, e, w1);
      Assigned(c, vm, env, s, cfg, |t.insns|, (StorePlaces(vm.host, [p], [v], w2), [p], [v]))
  {
    var (w1, p) := EvalPlace(vm.host, env, x, cfg.world);
    var (w2, v) := Eval(vm.host, env, e, w1);
    var out := Run(vm, mid, |s2.insns|).value;
    RunThen(vm, cfg, |s1.insns|, |s2.insns|);
    RunThen(vm, cfg, |s2.insns|, |t.insns|);
    DenotesStays(c, lv, p, mid.regs, out.regs, s1.regTop, s1.regTop);
    StoreCorrect(c, s2, lv, r, StoreCode(s2, lv, r).value, p, vm, out);
    forall l ensures LastStore([p], [v], l) == None {
      assert [p][..0] == [] && [v][..0] == [];
    }
  }

  /** The emitted code performs the events of the assignment, without those of surplus values that
      were dropped, leaves every local with the last value stored into it, and changes no other register. */
  lemma {:induction false} EmittedAssignCorrect(c: Context, s: Builder, vars: seq<Expr>, values: seq<Expr>, t: Builder, vm: Vm, env: Env, cfg: Config)
    requires vars != [] && values != [] && (forall e <- vars :: IsTarget(e)) && AssignCode(c, s, vars, values) == Ok(t)
    requires AssignReady(c, vm, env, vars, values, s, cfg, t) && Fits(|vars|, |values|)
    ensures Assigned(c, vm, env, s, cfg, |t.insns|, EmittedMeaning(c, vm.host, env, vars, values, cfg.world))
  {
    if |vars| == 1 && |values| == 1 {
      assert vars == [vars[0]] && values == [values[0]];
      SingleAssignCorrect(c, s, vars[0], values[0], t, vm, env, cfg);
    } else {
      MultiAssignCorrect(c, s, vars, values, t, vm, env, cfg);
    }
  }

  // ----- the limit of the last registers -----

  /** The registers for the last value and its nils are all allocated exactly when their number fits
      a byte; otherwise the count is cut off and the registers wrap around. */
  lemma LastRegistersAllocated(c: Context, s: Builder, lvs: seq<LValue>, conflict: seq<Option<nat>>, values: seq<Expr>, i: nat,
                               t: Builder, regs: seq<nat>)
    requires |lvs| == |conflict| && i + 1 == |values| < |lvs| && s.regTop <= MAX_REGISTERS
    requires ValuesCode(c, s, lvs, conflict, values, i) == Ok((t, regs))
    ensures (forall k :: 0 <= k < |regs| ==> regs[k] < t.regTop) <==> Fits(|lvs|, |values|)
  {
    if Fits(|lvs|, |values|) {
      var _ := LastValueCode(c, s, lvs, conflict, values, i, regs, t);
    } else {
      var k := MAX_REGISTERS - s.regTop;
      assert k < |regs| && regs[k] == (s.regTop + k) % BYTE == MAX_REGISTERS;
      assert t.regTop <= MAX_REGISTERS;
    }
  }

  const MANY: seq<Expr> := seq(257, _ => Upvalue(0))
  const BARE := Context(map[], map[], true)
  const EMPTY := Builder([], [], 0, 0)

  lemma {:induction false} UpvalueTargets(s: Builder, es: seq<Expr>)
    requires forall e <- es :: e.Upvalue?
    ensures
      var r := LValuesCode(BARE, s, es);
      r.Ok? && r.value.0 == s && |r.value.1| == |es| && forall k :: 0 <= k < |es| ==> r.value.1[k] == LvUpvalue(es[k].slot)
    decreases |es|
  {
    if es != [] {
      assert es[0] in es;
      UpvalueTargets(s, es[1..]);
      var rest := LValuesCode(BARE, s, es[1..]).value.1;
      assert LValueCode(BARE, s, es[0]) == Ok((s, LvUpvalue(es[0].slot)));
      assert LValuesCode(BARE, s, es).value.1 == [LvUpvalue(es[0].slot)] + rest;
    }
  }

  lemma {:induction false} UpvaluesDoNotConflict(s: Builder, lvs: seq<LValue>, values: seq<Expr>, i: nat)
    requires i <= |lvs| && forall lv <- lvs :: lv.LvUpvalue?
    ensures var r := ConflictRegs(BARE, s, lvs, values, i); r.Ok? && r.value.0 == s
    decreases |lvs| - i
  {
    if i < |lvs| {
      assert lvs[i] in lvs;
      UpvaluesDoNotConflict(s, lvs, values, i + 1);
    }
  }

  lemma {:induction false} UpvalueStores(s: Builder, lvs: seq<LValue>, regs: seq<nat>)
    requires |lvs| == |regs| && forall lv <- lvs :: lv.LvUpvalue?
    ensures StoresCode(s, lvs, regs).Ok? && MovesCode(s, lvs, regs) == s
    decreases |lvs|
  {
    if lvs != [] {
      UpvalueStores(EmitABC(s, SETUPVAL, regs[0], lvs[0].slot, 0), lvs[1..], regs[1..]);
      UpvalueStores(s, lvs[1..], regs[1..]);
    }
  }

  const TRUE := Literal(CBool(true))

  /** The first stores of a list of upvalues. */
  lemma TwoStores(s: Builder, lvs: seq<LValue>, regs: seq<nat>)
    requires |lvs| == |regs| >= 2 && forall lv <- lvs :: lv.LvUpvalue?
    ensures StoresCode(s, lvs, regs).Ok?
    ensures s.insns + [ABC(SETUPVAL, regs[0], lvs[0].slot, 0), ABC(SETUPVAL, regs[1], lvs[1].slot, 0)]
            <= StoresCode(s, lvs, regs).value.insns
  {
    var a := EmitABC(s, SETUPVAL, regs[0], lvs[0].slot, 0);
    var b := EmitABC(a, SETUPVAL, regs[1], lvs[1].slot, 0);
    UpvalueStores(s, lvs, regs);
    assert StoresCode(s, lvs, regs) == StoresCode(a, lvs[1..], regs[1..]);
    assert lvs[1..][0] == lvs[1] && regs[1..][0] == regs[1];
    assert StoresCode(a, lvs[1..], regs[1..]) == StoresCode(b, lvs[1..][1..], regs[1..][1..]);
    assert b.insns <= StoresCode(s, lvs, regs).value.insns;
    assert b.insns == s.insns + [ABC(SETUPVAL, regs[0], lvs[0].slot, 0), ABC(SETUPVAL, regs[1], lvs[1].slot, 0)];
  }

  /** What is computed before the stores: one register, although 257 are needed. */
  lemma ManyTargetsValues(lvs: seq<LValue>, conflict: seq<Option<nat>>) returns (s3: Builder, regs: seq<nat>)
    requires |lvs| == |conflict| == 257
    ensures ValuesCode(BARE, EMPTY, lvs, conflict, [TRUE], 0) == Ok((s3, regs))
    ensures s3 == Builder([ABC(LOADB, 0, 1, 0)], [], 1, 1) && |regs| == 257 && regs[0] == 0 && regs[1] == 1
  {
    assert (|lvs| - 1 + 1) % BYTE == 1;
    var s1 := AllocReg(EMPTY, 1).value;
    var s2 := ExprCode(BARE, s1, TRUE, 0, true).value;
    assert s2 == EmitABC(s1, LOADB, 0, 1, 0);
    assert LoadNils(s2, 1, 0) == s2;
    s3 := s2;
    regs := ValuesCode(BARE, EMPTY, lvs, conflict, [TRUE], 0).value.1;
  }

  lemma StoresKeepStack(s: Builder, lvs: seq<LValue>, regs: seq<nat>)
    requires |lvs| == |regs| && StoresCode(s, lvs, regs).Ok?
    ensures StoresCode(s, lvs, regs).value.stackSize == s.stackSize
    decreases |lvs|
  {
    if lvs != [] && !lvs[0].LvLocal? {
      StoresKeepStack(StoreCode(s, lvs[0], regs[0]).value, lvs[1..], regs[1..]);
    } else if lvs != [] {
      StoresKeepStack(s, lvs[1..], regs[1..]);
    }
  }

  lemma ManyTargetsCode() returns (t: Builder)
    ensures AssignCode(BARE, EMPTY, MANY, [TRUE]) == Ok(t) && t.stackSize == 1
    ensures [ABC(LOADB, 0, 1, 0), ABC(SETUPVAL, 0, 0, 0), ABC(SETUPVAL, 1, 0, 0)] <= t.insns
  {
    UpvalueTargets(EMPTY, MANY);
    var lvs := LValuesCode(BARE, EMPTY, MANY).value.1;
    UpvaluesDoNotConflict(EMPTY, lvs, [TRUE], 0);
    var conflict := ConflictRegs(BARE, EMPTY, lvs, [TRUE], 0).value.1;
    var s3, regs := ManyTargetsValues(lvs, conflict);
    TwoStores(s3, lvs, regs);
    StoresKeepStack(s3, lvs, regs);
    var s5 := StoresCode(s3, lvs, regs).value;
    UpvalueStores(s5, lvs, regs);
    t := ManyTargetsUnfold(MANY, lvs, conflict, s3, regs, s5);
  }

  lemma ManyTargetsUnfold(vars: seq<Expr>, lvs: seq<LValue>, conflict: seq<Option<nat>>, s3: Builder, regs: seq<nat>, s5: Builder)
    returns (t: Builder)
    requires |vars| == |lvs| == |conflict| == |regs| && |vars| > 1 && forall e <- vars :: IsTarget(e)
    requires LValuesCode(BARE, EMPTY, vars) == Ok((EMPTY, lvs)) && ConflictRegs(BARE, EMPTY, lvs, [TRUE], 0) == Ok((EMPTY, conflict))
    requires ValuesCode(BARE, EMPTY, lvs, conflict, [TRUE], 0) == Ok((s3, regs))
    requires StoresCode(s3, lvs, regs) == Ok(s5) && MovesCode(s5, lvs, regs) == s5
    ensures AssignCode(BARE, EMPTY, vars, [TRUE]) == Ok(t) && t.insns == s5.insns && t.stackSize == s5.stackSize
  {
    assert [TRUE][1..] == [];
    t := AssignCode(BARE, EMPTY, vars, [TRUE]).value;
  }

  /** With 257 targets and one value, the second store already reads outside the frame. */
  lemma ManyTargetsFail(vm: Vm, w: World)
    requires Placed(vm, EMPTY, AssignCode(BARE, EMPTY, MANY, [TRUE]).GetOr(EMPTY))
    ensures !Fits(|MANY|, 1) && AssignCode(BARE, EMPTY, MANY, [TRUE]).Ok?
    ensures
      var t := AssignCode(BARE, EMPTY, MANY, [TRUE]).value;
      Run(vm, Config(0, seq(t.stackSize, _ => NIL), w), |t.insns|) == None
  {
    var t := ManyTargetsCode();
    var first := [ABC(LOADB, 0, 1, 0), ABC(SETUPVAL, 0, 0, 0), ABC(SETUPVAL, 1, 0, 0)];
    forall i | 0 <= i < 3 ensures vm.code[i] == first[i] {
      assert vm.code[i] == Patched(t.insns, [], 0, i);
    }
    var cfg := Config(0, [NIL], w);
    assert seq(t.stackSize, _ => NIL) == [NIL];
    RunOne(vm, cfg, 1);
    RunThenOne(vm, cfg, 1, 2);
    assert Step(vm.host, vm.code, vm.consts, Run(vm, cfg, 2).value) == None;
    RunThen(vm, cfg, 2, |t.insns|);
  }
}
