/**
 Expression compilation is correct: running the emitted code leaves the value of the expression in
 the target, performs exactly the events that evaluation performs, changes no other register that
 was allocated before, and touches no register outside the frame it reports.
 */
module EmitProof {
  import opened Results
  import opened LuaSource
  import opened RegisterVm
  import opened EmitSpec

  datatype Vm = Vm(host: Host, code: seq<Insn>, consts: seq<Const>)

  function Run(vm: Vm, cfg: Config, stop: nat): Option<Config> {
    Exec(vm.host, vm.code, vm.consts, cfg, stop)
  }

  /** The machine holds the code between `s` and `t`, whose labels now jump to `goal`. */
  ghost predicate PlacedFor(vm: Vm, s: Builder, t: Builder, labels: Labels, goal: int) {
    && |s.insns| <= |t.insns| <= |vm.code|
    && t.constants <= vm.consts
    && forall i :: |s.insns| <= i < |t.insns| ==> vm.code[i] == Patched(t.insns, labels, goal, i)
  }

  ghost predicate Placed(vm: Vm, s: Builder, t: Builder) {
    PlacedFor(vm, s, t, [], 0)
  }

  /** Every constant that was recorded for a part of `e` is its value, whatever the world. */
  ghost predicate Sound(c: Context, h: Host, env: Env, e: Expr) {
    && (e in c.known ==> forall w :: Eval(h, env, e, w) == (w, Prim(c.known[e])))
    && match e
       case Group(x) => Sound(c, h, env, x)
       case Unary(_, x) => Sound(c, h, env, x)
       case Binary(_, x, y) => Sound(c, h, env, x) && Sound(c, h, env, y)
       case IfElse(x, y, z) => Sound(c, h, env, x) && Sound(c, h, env, y) && Sound(c, h, env, z)
       case IndexName(x, _) => Sound(c, h, env, x)
       case IndexExpr(x, i) => Sound(c, h, env, x) && Sound(c, h, env, i)
       case _ => true
  }

  /** The locals live in their registers, all of them allocated, and the frame is large enough. */
  ghost predicate Ready(c: Context, env: Env, s: Builder, cfg: Config, frame: nat) {
    && cfg.pc == |s.insns|
    && s.regTop <= s.stackSize <= frame <= |cfg.regs|
    && forall l <- c.locals :: c.locals[l] < s.regTop && l in env && cfg.regs[c.locals[l]] == env[l]
  }

  /** A register that no local lives in. */
  ghost predicate Free(c: Context, target: nat) {
    forall l <- c.locals :: c.locals[l] != target
  }

  ghost predicate SameBelow(before: seq<Value>, after: seq<Value>, top: nat) {
    |before| == |after| && forall r :: 0 <= r < top && r < |before| ==> after[r] == before[r]
  }

  ghost predicate SameBelowExcept(before: seq<Value>, after: seq<Value>, top: nat, target: nat) {
    |before| == |after| && forall r :: 0 <= r < top && r < |before| && r != target ==> after[r] == before[r]
  }

  /** The run to `stop` ends there with the result in `target`. */
  ghost predicate Computes(vm: Vm, cfg: Config, stop: nat, target: nat, top: nat, result: (World, Value)) {
    match Run(vm, cfg, stop)
    case None => false
    case Some(out) =>
      && out.pc == stop && out.world == result.0
      && SameBelowExcept(cfg.regs, out.regs, top, target)
      && target < |out.regs| && out.regs[target] == result.1
  }

  lemma PlacedPrefix(vm: Vm, s: Builder, m: Builder, t: Builder)
    requires Placed(vm, s, t) && Grows(s, m) && Grows(m, t)
    ensures Placed(vm, s, m) && Placed(vm, m, t)
  {
    forall i | |s.insns| <= i < |m.insns|
      ensures vm.code[i] == Patched(m.insns, [], 0, i)
    {
      assert vm.code[i] == Patched(t.insns, [], 0, i);
      assert m.insns[i] == t.insns[i];
    }
  }

  lemma RunThen(vm: Vm, cfg: Config, mid: nat, stop: nat)
    requires mid <= stop && Run(vm, cfg, mid).Some?
    ensures Run(vm, cfg, stop) == Run(vm, Run(vm, cfg, mid).value, stop)
  {
    ExecSplit(vm.host, vm.code, vm.consts, cfg, mid, stop);
  }

  /** The effect of the single instruction that leads to `stop`. */
  lemma RunOne(vm: Vm, cfg: Config, stop: nat)
    requires cfg.pc < stop
    requires Step(vm.host, vm.code, vm.consts, cfg).Some? && Step(vm.host, vm.code, vm.consts, cfg).value.pc >= stop
    ensures Run(vm, cfg, stop) == Step(vm.host, vm.code, vm.consts, cfg)
  {
    var next := Step(vm.host, vm.code, vm.consts, cfg).value;
    assert Exec(vm.host, vm.code, vm.consts, next, stop) == Some(next);
  }

  /** A run to `mid` and then one instruction that leads to `stop`. */
  lemma RunThenOne(vm: Vm, cfg: Config, mid: nat, stop: nat)
    requires mid < stop && Run(vm, cfg, mid).Some? && Run(vm, cfg, mid).value.pc == mid
    requires Step(vm.host, vm.code, vm.consts, Run(vm, cfg, mid).value).Some?
    requires Step(vm.host, vm.code, vm.consts, Run(vm, cfg, mid).value).value.pc >= stop
    ensures Run(vm, cfg, stop) == Step(vm.host, vm.code, vm.consts, Run(vm, cfg, mid).value)
  {
    RunThen(vm, cfg, mid, stop);
    RunOne(vm, Run(vm, cfg, mid).value, stop);
  }

  /** Ends a computation with an instruction that writes the target. */
  lemma Finish(vm: Vm, cfg: Config, mid: nat, stop: nat, target: nat, top: nat, result: (World, Value))
    requires mid < stop && Run(vm, cfg, mid).Some? && target < |cfg.regs|
    requires
      var out := Run(vm, cfg, mid).value;
      && out.pc == mid && SameBelow(cfg.regs, out.regs, top)
      && Step(vm.host, vm.code, vm.consts, out) == Put(stop, out.regs, target, result)
    ensures Computes(vm, cfg, stop, target, top, result)
  {
    RunThenOne(vm, cfg, mid, stop);
  }

  // ----- leaves -----

  lemma LoadKCorrect(s: Builder, id: nat, target: nat, vm: Vm, cfg: Config)
    requires Placed(vm, s, EmitLoadK(s, target, id))
    requires cfg.pc == |s.insns| && target < |cfg.regs| && id < |vm.consts|
    ensures Computes(vm, cfg, |EmitLoadK(s, target, id).insns|, target, |cfg.regs|, (cfg.world, Prim(vm.consts[id])))
  {
    var t := EmitLoadK(s, target, id);
    assert vm.code[cfg.pc] == t.insns[cfg.pc];
    if id >= 32768 {
      assert vm.code[cfg.pc + 1] == t.insns[cfg.pc + 1];
    }
    RunOne(vm, cfg, |t.insns|);
  }

  lemma ConstantCorrect(s: Builder, k: Const, target: nat, vm: Vm, cfg: Config)
    requires ConstantExpr(s, k, target).Ok?
    requires Placed(vm, s, ConstantExpr(s, k, target).value)
    requires cfg.pc == |s.insns| && target < |cfg.regs|
    ensures Computes(vm, cfg, |ConstantExpr(s, k, target).value.insns|, target, |cfg.regs|, (cfg.world, Prim(k)))
  {
    var t := ConstantExpr(s, k, target).value;
    assert vm.code[cfg.pc] == t.insns[cfg.pc];
    if !(k.CNil? || k.CBool? || (k.CNumber? && k.n.Integral? && -32768 <= k.n.value <= 32767)) {
      var (s1, id) := AddConstant(s, k).value;
      LoadKCorrect(s1, id, target, vm, cfg);
    } else {
      RunOne(vm, cfg, |t.insns|);
    }
  }

  lemma LiteralCorrect(s: Builder, k: Const, target: nat, vm: Vm, cfg: Config)
    requires LiteralExpr(s, k, target).Ok?
    requires Placed(vm, s, LiteralExpr(s, k, target).value)
    requires cfg.pc == |s.insns| && target < |cfg.regs|
    ensures Computes(vm, cfg, |LiteralExpr(s, k, target).value.insns|, target, |cfg.regs|, (cfg.world, Prim(k)))
  {
    var t := LiteralExpr(s, k, target).value;
    assert vm.code[cfg.pc] == t.insns[cfg.pc];
    if !k.CNil? && !k.CBool? {
      var (s1, id) := AddConstant(s, k).value;
      LoadKCorrect(s1, id, target, vm, cfg);
    } else {
      RunOne(vm, cfg, |t.insns|);
    }
  }

  /** A local read through parentheses needs no code. */
  lemma {:induction false} LocalRegEval(c: Context, h: Host, env: Env, s: Builder, cfg: Config, frame: nat, e: Expr, w: World)
    requires Ready(c, env, s, cfg, frame) && LocalReg(c, e).Some?
    ensures LocalReg(c, e).value < s.regTop && LocalReg(c, e).value in c.locals.Values
    ensures Eval(h, env, e, w) == (w, cfg.regs[LocalReg(c, e).value])
  {
    match e
    case Group(x) => LocalRegEval(c, h, env, s, cfg, frame, x, w);
    case Local(l) => assert l in c.locals;
    case _ =>
  }

  // ----- expressions -----

  /** Reading a variable. */
  lemma {:induction false} LeafCorrect(c: Context, s: Builder, e: Expr, target: nat, temp: bool, vm: Vm, env: Env, cfg: Config)
    requires (e.Local? || e.Upvalue? || e.Global?) && e !in c.known && ExprCode(c, s, e, target, temp).Ok?
    requires Placed(vm, s, ExprCode(c, s, e, target, temp).value)
    requires Ready(c, env, s, cfg, ExprCode(c, s, e, target, temp).value.stackSize) && target < s.regTop
    ensures Computes(vm, cfg, |ExprCode(c, s, e, target, temp).value.insns|, target, s.regTop, Eval(vm.host, env, e, cfg.world))
  {
    var t := ExprCode(c, s, e, target, temp).value;
    match e
    case Local(l) =>
      if !c.optimize || target != c.locals[l] {
        assert vm.code[cfg.pc] == t.insns[cfg.pc];
        RunOne(vm, cfg, |t.insns|);
      }
    case Upvalue(u) =>
      assert vm.code[cfg.pc] == t.insns[cfg.pc];
      RunOne(vm, cfg, |t.insns|);
    case Global(n) =>
      assert vm.code[cfg.pc] == t.insns[cfg.pc] && vm.code[cfg.pc + 1] == t.insns[cfg.pc + 1];
      RunOne(vm, cfg, |t.insns|);
  }

  lemma {:induction false} ExprCorrect(c: Context, s: Builder, e: Expr, target: nat, temp: bool, vm: Vm, env: Env, cfg: Config)
    requires ExprCode(c, s, e, target, temp).Ok?
    requires Placed(vm, s, ExprCode(c, s, e, target, temp).value)
    requires Ready(c, env, s, cfg, ExprCode(c, s, e, target, temp).value.stackSize)
    requires Sound(c, vm.host, env, e) && target < s.regTop && (temp ==> Free(c, target))
    ensures Computes(vm, cfg, |ExprCode(c, s, e, target, temp).value.insns|, target, s.regTop, Eval(vm.host, env, e, cfg.world))
    decreases Size(e), 4
  {
    var t := ExprCode(c, s, e, target, temp).value;
    if e in c.known {
      ConstantCorrect(s, c.known[e], target, vm, cfg);
    } else {
      match e
      case Group(x) => ExprCorrect(c, s, x, target, temp, vm, env, cfg);
      case Literal(k) => LiteralCorrect(s, k, target, vm, cfg);
      case Local(_) => LeafCorrect(c, s, e, target, temp, vm, env, cfg);
      case Upvalue(_) => LeafCorrect(c, s, e, target, temp, vm, env, cfg);
      case Global(_) => LeafCorrect(c, s, e, target, temp, vm, env, cfg);
      case Unary(op, x) => UnaryCorrect(c, s, e, target, temp, t, vm, env, cfg);
      case Binary(Arith(_), _, _) => ArithCorrect(c, s, e, target, vm, env, cfg);
      case Binary(Concat, _, _) => ConcatCorrect(c, s, e, target, temp, t, vm, env, cfg);
      case Binary(Compare(_), _, _) => CompareCorrect(c, s, e, target, temp, t, vm, env, cfg);
      case Binary(And, _, _) => AndOrCorrect(c, s, e, target, temp, vm, env, cfg);
      case Binary(Or, _, _) => AndOrCorrect(c, s, e, target, temp, vm, env, cfg);
      case IfElse(_, _, _) => IfElseCorrect(c, s, e, target, temp, t, vm, env, cfg);
      case IndexName(_, _) => IndexNameCorrect(c, s, e, target, temp, t, vm, env, cfg);
      case IndexExpr(_, _) => IndexCorrect(c, s, e, target, vm, env, cfg);
    }
  }

  /** What `AutoCode` promises: the value is in the register it names, nothing else changed. */
  ghost predicate Holds(vm: Vm, s: Builder, t: Builder, reg: nat, cfg: Config, result: (World, Value)) {
    match Run(vm, cfg, |t.insns|)
    case None => false
    case Some(out) =>
      && out.pc == |t.insns| && out.world == result.0
      && SameBelow(cfg.regs, out.regs, s.regTop)
      && reg < t.regTop <= t.stackSize && reg < |out.regs| && out.regs[reg] == result.1
  }

  lemma {:induction false} AutoCorrect(c: Context, s: Builder, e: Expr, vm: Vm, env: Env, cfg: Config)
    requires AutoCode(c, s, e).Ok?
    requires Placed(vm, s, AutoCode(c, s, e).value.0)
    requires Ready(c, env, s, cfg, AutoCode(c, s, e).value.0.stackSize) && Sound(c, vm.host, env, e)
    ensures Holds(vm, s, AutoCode(c, s, e).value.0, AutoCode(c, s, e).value.1, cfg, Eval(vm.host, env, e, cfg.world))
    ensures Ready(c, env, AutoCode(c, s, e).value.0, Run(vm, cfg, |AutoCode(c, s, e).value.0.insns|).value,
                  AutoCode(c, s, e).value.0.stackSize)
    decreases Size(e), 5, 0
  {
    match LocalReg(c, e)
    case Some(r) =>
      LocalRegEval(c, vm.host, env, s, cfg, s.stackSize, e, cfg.world);
    case None =>
      var s1 := AllocReg(s, 1).value;
      ExprCorrect(c, s1, e, s.regTop, true, vm, env, cfg);
  }

  /** With its operand in register `r`, the instruction at `n` gives `result` and goes on at `stop`. */
  ghost predicate Gives(vm: Vm, n: nat, r: nat, operand: (World, Value), stop: nat, target: nat, result: (World, Value)) {
    forall regs :: r < |regs| && regs[r] == operand.1 ==>
      Step(vm.host, vm.code, vm.consts, Config(n, regs, operand.0)) == Put(stop, regs, target, result)
  }

  /** An instruction whose only computed operand is `x`. */
  lemma {:induction false} OneOperandCorrect(c: Context, s: Builder, x: Expr, s1: Builder, r: nat, t: Builder, target: nat,
                                             vm: Vm, env: Env, cfg: Config, result: (World, Value))
    requires AutoCode(c, s, x) == Ok((s1, r)) && Grows(s1, t) && |s1.insns| < |t.insns|
    requires Placed(vm, s, t) && Ready(c, env, s, cfg, t.stackSize) && Sound(c, vm.host, env, x) && target < s.regTop
    requires Gives(vm, |s1.insns|, r, Eval(vm.host, env, x, cfg.world), |t.insns|, target, result)
    ensures Computes(vm, cfg, |t.insns|, target, s.regTop, result)
    decreases Size(x), 6
  {
    PlacedPrefix(vm, s, s1, t);
    AutoCorrect(c, s, x, vm, env, cfg);
    Finish(vm, cfg, |s1.insns|, |t.insns|, target, s.regTop, result);
  }

  lemma {:induction false} UnaryCorrect(c: Context, s: Builder, e: Expr, target: nat, temp: bool, t: Builder, vm: Vm, env: Env, cfg: Config)
    requires e.Unary? && e !in c.known
    requires ExprCode(c, s, e, target, temp) == Ok(t) && Placed(vm, s, t) && Ready(c, env, s, cfg, t.stackSize)
    requires Sound(c, vm.host, env, e) && target < s.regTop
    ensures Computes(vm, cfg, |t.insns|, target, s.regTop, Eval(vm.host, env, e, cfg.world))
    decreases Size(e), 3
  {
    var (s1, r) := AutoCode(c, s, e.operand).value;
    assert vm.code[|s1.insns|] == t.insns[|s1.insns|] == ABC(UnaryOpcode(e.uop), target, r, 0);
    UnaryStep(vm, |s1.insns|, e.uop, target, r, Eval(vm.host, env, e.operand, cfg.world));
    OneOperandCorrect(c, s, e.operand, s1, r, t, target, vm, env, cfg, Eval(vm.host, env, e, cfg.world));
  }

  lemma UnaryStep(vm: Vm, n: nat, op: UnaryOp, target: nat, r: nat, operand: (World, Value))
    requires n < |vm.code| && vm.code[n] == ABC(UnaryOpcode(op), target, r, 0)
    ensures Gives(vm, n, r, operand, n + 1, target, UnaryValue(vm.host, operand.0, op, operand.1))
  {
  }

  /** The code for indexing with a constant string. */
  lemma {:induction false} IndexNameCode(c: Context, s: Builder, e: Expr, target: nat, temp: bool, t: Builder) returns (s1: Builder, r: nat, id: nat)
    requires e.IndexName? && e !in c.known && ExprCode(c, s, e, target, temp) == Ok(t)
    ensures AutoCode(c, s, e.prefix) == Ok((s1, r)) && Grows(s1, t)
    ensures t.insns == s1.insns + [ABC(GETTABLEKS, target, r, 0), Aux(id, false)]
    ensures id < |t.constants| && t.constants[id] == CString(e.key)
  {
    s1, r := AutoCode(c, s, e.prefix).value.0, AutoCode(c, s, e.prefix).value.1;
    id := AddConstant(s1, CString(e.key)).value.1;
  }

  /** A table access with a string or a small number as its key. */
  predicate KeyAccess(tail: seq<Insn>, key: Const, consts: seq<Const>, target: nat, r: nat) {
    || (|tail| == 1 && tail[0].ABC? && key == CNumber(Integral(tail[0].c + 1)) && tail[0] == ABC(GETTABLEN, target, r, tail[0].c))
    || (|tail| == 2 && tail[0] == ABC(GETTABLEKS, target, r, 0) && tail[1].Aux? && tail[1].word < |consts| && consts[tail[1].word] == key)
  }

  lemma KeyPlaced(vm: Vm, s: Builder, s1: Builder, tail: seq<Insn>, t: Builder, key: Const, target: nat, r: nat)
    requires KeyAccess(tail, key, t.constants, target, r) && Placed(vm, s, t)
    requires |s.insns| <= |s1.insns| && t.insns == s1.insns + tail
    ensures
      var n := |s1.insns|;
      n + |tail| == |t.insns| <= |vm.code| && vm.code[n] == tail[0] && (|tail| > 1 ==> vm.code[n + 1] == tail[1])
    ensures KeyAccess(tail, key, vm.consts, target, r)
  {
    var n := |s1.insns|;
    assert vm.code[n] == t.insns[n] == tail[0];
    if |tail| == 2 {
      assert vm.code[n + 1] == t.insns[n + 1] == tail[1];
    }
  }

  lemma KeyStep(vm: Vm, n: nat, target: nat, r: nat, tail: seq<Insn>, key: Const, operand: (World, Value))
    requires KeyAccess(tail, key, vm.consts, target, r)
    requires n + |tail| <= |vm.code| && vm.code[n] == tail[0] && (|tail| > 1 ==> vm.code[n + 1] == tail[1])
    ensures Gives(vm, n, r, operand, n + |tail|, target, Ask(vm.host, operand.0, EvGetTable(operand.1, Prim(key))))
  {
  }

  lemma KeyGives(vm: Vm, s: Builder, s1: Builder, tail: seq<Insn>, t: Builder, key: Const, target: nat, r: nat, operand: (World, Value))
    requires KeyAccess(tail, key, t.constants, target, r) && Placed(vm, s, t)
    requires |s.insns| <= |s1.insns| && t.insns == s1.insns + tail
    ensures |s1.insns| < |t.insns|
    ensures Gives(vm, |s1.insns|, r, operand, |t.insns|, target, Ask(vm.host, operand.0, EvGetTable(operand.1, Prim(key))))
  {
    KeyPlaced(vm, s, s1, tail, t, key, target, r);
    KeyStep(vm, |s1.insns|, target, r, tail, key, operand);
  }

  lemma {:induction false} KeyCorrect(c: Context, s: Builder, x: Expr, s1: Builder, r: nat, tail: seq<Insn>, key: Const,
                                      t: Builder, target: nat, vm: Vm, env: Env, cfg: Config)
    requires AutoCode(c, s, x) == Ok((s1, r)) && Grows(s1, t) && t.insns == s1.insns + tail
    requires KeyAccess(tail, key, t.constants, target, r)
    requires Placed(vm, s, t) && Ready(c, env, s, cfg, t.stackSize) && Sound(c, vm.host, env, x) && target < s.regTop
    ensures
      var (w, v) := Eval(vm.host, env, x, cfg.world);
      Computes(vm, cfg, |t.insns|, target, s.regTop, Ask(vm.host, w, EvGetTable(v, Prim(key))))
    decreases Size(x), 7
  {
    var operand := Eval(vm.host, env, x, cfg.world);
    KeyGives(vm, s, s1, tail, t, key, target, r, operand);
    OneOperandCorrect(c, s, x, s1, r, t, target, vm, env, cfg, Ask(vm.host, operand.0, EvGetTable(operand.1, Prim(key))));
  }

  lemma {:induction false} IndexNameCorrect(c: Context, s: Builder, e: Expr, target: nat, temp: bool, t: Builder, vm: Vm, env: Env, cfg: Config)
    requires e.IndexName? && e !in c.known
    requires ExprCode(c, s, e, target, temp) == Ok(t) && Placed(vm, s, t) && Ready(c, env, s, cfg, t.stackSize)
    requires Sound(c, vm.host, env, e) && target < s.regTop
    ensures Computes(vm, cfg, |t.insns|, target, s.regTop, Eval(vm.host, env, e, cfg.world))
    decreases Size(e), 3
  {
    var s1, r, id := IndexNameCode(c, s, e, target, temp, t);
    KeyCorrect(c, s, e.prefix, s1, r, [ABC(GETTABLEKS, target, r, 0), Aux(id, false)], CString(e.key), t, target, vm, env, cfg);
  }

  /** Two operands, one after the other, each in its register. */
  lemma {:induction false} OperandsCorrect(c: Context, s: Builder, x: Expr, y: Expr, vm: Vm, env: Env, cfg: Config)
    requires AutoCode(c, s, x).Ok? && AutoCode(c, AutoCode(c, s, x).value.0, y).Ok?
    requires Placed(vm, s, AutoCode(c, AutoCode(c, s, x).value.0, y).value.0)
    requires Ready(c, env, s, cfg, AutoCode(c, AutoCode(c, s, x).value.0, y).value.0.stackSize)
    requires Sound(c, vm.host, env, x) && Sound(c, vm.host, env, y)
    ensures
      var (s1, rx) := AutoCode(c, s, x).value;
      var (s2, ry) := AutoCode(c, s1, y).value;
      var (w1, a) := Eval(vm.host, env, x, cfg.world);
      Holds(vm, s, s2, rx, cfg, (Eval(vm.host, env, y, w1).0, a)) && Holds(vm, s, s2, ry, cfg, Eval(vm.host, env, y, w1))
    decreases 1 + Size(x) + Size(y), 0
  {
    var (s1, rx) := AutoCode(c, s, x).value;
    var (s2, ry) := AutoCode(c, s1, y).value;
    PlacedPrefix(vm, s, s1, s2);
    AutoCorrect(c, s, x, vm, env, cfg);
    var out := Run(vm, cfg, |s1.insns|).value;
    AutoCorrect(c, s1, y, vm, env, out);
    RunThen(vm, cfg, |s1.insns|, |s2.insns|);
  }

  lemma {:induction false} ArithRegsCorrect(c: Context, s: Builder, e: Expr, target: nat, oldTop: FrameSize, vm: Vm, env: Env, cfg: Config)
    requires e.Binary? && e.bop.Arith? && ArithRegs(c, s, e, target, oldTop).Ok?
    requires Placed(vm, s, ArithRegs(c, s, e, target, oldTop).value)
    requires Ready(c, env, s, cfg, ArithRegs(c, s, e, target, oldTop).value.stackSize)
    requires Sound(c, vm.host, env, e) && target < s.regTop
    ensures Computes(vm, cfg, |ArithRegs(c, s, e, target, oldTop).value.insns|, target, s.regTop, Eval(vm.host, env, e, cfg.world))
    decreases Size(e), 1
  {
    var t := ArithRegs(c, s, e, target, oldTop).value;
    var (s1, _) := AutoCode(c, s, e.left).value;
    var (s2, _) := AutoCode(c, s1, e.right).value;
    PlacedPrefix(vm, s, s2, t);
    OperandsCorrect(c, s, e.left, e.right, vm, env, cfg);
    assert vm.code[|s2.insns|] == t.insns[|s2.insns|];
    TwoOperandStep(vm, Run(vm, cfg, |s2.insns|).value, e.bop.arith, target, AutoCode(c, s, e.left).value.1, AutoCode(c, s1, e.right).value.1);
    Finish(vm, cfg, |s2.insns|, |t.insns|, target, s.regTop, Eval(vm.host, env, e, cfg.world));
  }

  /** Arithmetic, or a table access, with two registers. */
  lemma TwoOperandStep(vm: Vm, cfg: Config, op: ArithOp, target: nat, rx: nat, ry: nat)
    requires cfg.pc < |vm.code| && rx < |cfg.regs| && ry < |cfg.regs|
    ensures vm.code[cfg.pc] == ABC(ARITH(op), target, rx, ry) ==>
              Step(vm.host, vm.code, vm.consts, cfg) ==
              Put(cfg.pc + 1, cfg.regs, target, ArithValue(vm.host, cfg.world, op, cfg.regs[rx], cfg.regs[ry]))
    ensures vm.code[cfg.pc] == ABC(GETTABLE, target, rx, ry) ==>
              Step(vm.host, vm.code, vm.consts, cfg) ==
              Put(cfg.pc + 1, cfg.regs, target, Ask(vm.host, cfg.world, EvGetTable(cfg.regs[rx], cfg.regs[ry])))
  {
  }

  lemma ArithConstantStep(vm: Vm, n: nat, op: ArithOp, right: bool, target: nat, r: nat, id: nat, operand: (World, Value))
    requires n < |vm.code| && id < |vm.consts|
    requires vm.code[n] == if right then ABC(ARITHK(op), target, r, id) else ABC(ARITHRK(op), target, id, r)
    ensures Gives(vm, n, r, operand, n + 1, target,
                  if right then ArithValue(vm.host, operand.0, op, operand.1, Prim(vm.consts[id]))
                  else ArithValue(vm.host, operand.0, op, Prim(vm.consts[id]), operand.1))
  {
  }

  lemma ArithConstantMeaning(c: Context, h: Host, env: Env, e: Expr, right: bool, k: Const, w: World)
    requires e.Binary? && e.bop.Arith? && Sound(c, h, env, e)
    requires var x := if right then e.right else e.left; x in c.known && c.known[x] == k
    ensures
      var (w1, v) := Eval(h, env, if right then e.left else e.right, w);
      Eval(h, env, e, w) == if right then ArithValue(h, w1, e.bop.arith, v, Prim(k)) else ArithValue(h, w1, e.bop.arith, Prim(k), v)
  {
    if right {
      var w1 := Eval(h, env, e.left, w).0;
      assert Eval(h, env, e.right, w1) == (w1, Prim(k));
    } else {
      assert Eval(h, env, e.left, w) == (w, Prim(k));
    }
  }

  /** Arithmetic with a constant operand. */
  lemma {:induction false} ArithConstantRuns(c: Context, s: Builder, x: Expr, s1: Builder, r: nat, op: ArithOp, right: bool, id: nat,
                                             t: Builder, target: nat, vm: Vm, env: Env, cfg: Config)
    requires AutoCode(c, s, x) == Ok((s1, r)) && Grows(s1, t) && id < |t.constants|
    requires t.insns == s1.insns + [if right then ABC(ARITHK(op), target, r, id) else ABC(ARITHRK(op), target, id, r)]
    requires Placed(vm, s, t) && Ready(c, env, s, cfg, t.stackSize) && Sound(c, vm.host, env, x) && target < s.regTop
    ensures
      var (w, v) := Eval(vm.host, env, x, cfg.world);
      Computes(vm, cfg, |t.insns|, target, s.regTop,
               if right then ArithValue(vm.host, w, op, v, Prim(t.constants[id])) else ArithValue(vm.host, w, op, Prim(t.constants[id]), v))
    decreases Size(x), 7
  {
    var n := |s1.insns|;
    assert vm.code[n] == t.insns[n];
    var operand := Eval(vm.host, env, x, cfg.world);
    ArithConstantStep(vm, n, op, right, target, r, id, operand);
    OneOperandCorrect(c, s, x, s1, r, t, target, vm, env, cfg,
      if right then ArithValue(vm.host, operand.0, op, operand.1, Prim(t.constants[id]))
      else ArithValue(vm.host, operand.0, op, Prim(t.constants[id]), operand.1));
  }

  lemma {:induction false} ArithConstantCorrect(c: Context, s: Builder, e: Expr, right: bool, id: nat, t: Builder, target: nat,
                                                vm: Vm, env: Env, cfg: Config)
    requires e.Binary? && e.bop.Arith? && id < |t.constants|
    requires var k := if right then e.right else e.left; k in c.known && c.known[k] == t.constants[id]
    requires
      var x := if right then e.left else e.right;
      && AutoCode(c, s, x).Ok?
      && var (s1, r) := AutoCode(c, s, x).value;
         var insn := if right then ABC(ARITHK(e.bop.arith), target, r, id) else ABC(ARITHRK(e.bop.arith), target, id, r);
         Grows(s1, t) && t.insns == s1.insns + [insn]
    requires Placed(vm, s, t) && Ready(c, env, s, cfg, t.stackSize) && Sound(c, vm.host, env, e) && target < s.regTop
    ensures Computes(vm, cfg, |t.insns|, target, s.regTop, Eval(vm.host, env, e, cfg.world))
    decreases Size(e), 1
  {
    var x := if right then e.left else e.right;
    var (s1, r) := AutoCode(c, s, x).value;
    ArithConstantMeaning(c, vm.host, env, e, right, t.constants[id], cfg.world);
    ArithConstantRuns(c, s, x, s1, r, e.bop.arith, right, id, t, target, vm, env, cfg);
  }

  lemma {:induction false} ArithCorrect(c: Context, s: Builder, e: Expr, target: nat, vm: Vm, env: Env, cfg: Config)
    requires e.Binary? && e.bop.Arith? && ArithCode(c, s, e, target).Ok?
    requires Placed(vm, s, ArithCode(c, s, e, target).value)
    requires Ready(c, env, s, cfg, ArithCode(c, s, e, target).value.stackSize)
    requires Sound(c, vm.host, env, e) && target < s.regTop
    ensures Computes(vm, cfg, |ArithCode(c, s, e, target).value.insns|, target, s.regTop, Eval(vm.host, env, e, cfg.world))
    decreases Size(e), 2
  {
    var t := ArithCode(c, s, e, target).value;
    var op := e.bop.arith;
    var (s1, rc) := ConstantNumber(c, s, e.right).value;
    if rc.Some? && rc.value <= 255 {
      ArithConstantCorrect(c, s1, e, true, rc.value, t, target, vm, env, cfg);
    } else if op == Sub || op == Div {
      ArithReversedCorrect(c, s, s1, e, target, t, vm, env, cfg);
    } else {
      ArithRegsCorrect(c, s1, e, target, s.regTop, vm, env, cfg);
    }
  }

  /** Subtraction and division, whose left operand may be the constant. */
  lemma {:induction false} ArithReversedCorrect(c: Context, s: Builder, s1: Builder, e: Expr, target: nat, t: Builder, vm: Vm, env: Env, cfg: Config)
    requires e.Binary? && e.bop.Arith? && ConstantNumber(c, s1, e.left).Ok?
    requires
      var (s2, lc) := ConstantNumber(c, s1, e.left).value;
      if lc.Some? && lc.value <= 255 then
        && AutoCode(c, s2, e.right).Ok?
        && var (s3, rr) := AutoCode(c, s2, e.right).value;
           t == EmitABC(s3, ARITHRK(e.bop.arith), target, lc.value, rr).(regTop := s.regTop)
      else ArithRegs(c, s2, e, target, s.regTop) == Ok(t)
    requires Grows(s, s1) && s1.insns == s.insns && s1.regTop == s.regTop && s1.stackSize == s.stackSize
    requires Placed(vm, s, t) && Ready(c, env, s, cfg, t.stackSize) && Sound(c, vm.host, env, e) && target < s.regTop
    ensures Computes(vm, cfg, |t.insns|, target, s.regTop, Eval(vm.host, env, e, cfg.world))
    decreases Size(e), 2, 0
  {
    var (s2, lc) := ConstantNumber(c, s1, e.left).value;
    if lc.Some? && lc.value <= 255 {
      ArithConstantCorrect(c, s2, e, false, lc.value, t, target, vm, env, cfg);
    } else {
      ArithRegsCorrect(c, s2, e, target, s.regTop, vm, env, cfg);
    }
  }

  lemma {:induction false} IndexConstantCorrect(c: Context, s: Builder, e: Expr, tail: seq<Insn>, t: Builder, target: nat,
                                                vm: Vm, env: Env, cfg: Config)
    requires e.IndexExpr? && AutoCode(c, s, e.table).Ok? && e.index in c.known
    requires
      var (s1, r) := AutoCode(c, s, e.table).value;
      && Grows(s1, t) && t.insns == s1.insns + tail
      && ((SmallIndex(c, e.index).Some? && tail == [ABC(GETTABLEN, target, r, SmallIndex(c, e.index).value)])
          || (|tail| == 2 && tail[0] == ABC(GETTABLEKS, target, r, 0) && tail[1].Aux? && tail[1].word < |t.constants|
              && t.constants[tail[1].word] == c.known[e.index]))
    requires Placed(vm, s, t) && Ready(c, env, s, cfg, t.stackSize) && Sound(c, vm.host, env, e) && target < s.regTop
    ensures Computes(vm, cfg, |t.insns|, target, s.regTop, Eval(vm.host, env, e, cfg.world))
    decreases Size(e), 1
  {
    var (s1, r) := AutoCode(c, s, e.table).value;
    var (w, v) := Eval(vm.host, env, e.table, cfg.world);
    assert Eval(vm.host, env, e, cfg.world) == Ask(vm.host, w, EvGetTable(v, Prim(c.known[e.index])));
    KeyCorrect(c, s, e.table, s1, r, tail, c.known[e.index], t, target, vm, env, cfg);
  }

  lemma {:induction false} IndexCorrect(c: Context, s: Builder, e: Expr, target: nat, vm: Vm, env: Env, cfg: Config)
    requires e.IndexExpr? && IndexCode(c, s, e, target).Ok?
    requires Placed(vm, s, IndexCode(c, s, e, target).value)
    requires Ready(c, env, s, cfg, IndexCode(c, s, e, target).value.stackSize)
    requires Sound(c, vm.host, env, e) && target < s.regTop
    ensures Computes(vm, cfg, |IndexCode(c, s, e, target).value.insns|, target, s.regTop, Eval(vm.host, env, e, cfg.world))
    decreases Size(e), 2
  {
    var t := IndexCode(c, s, e, target).value;
    if SmallIndex(c, e.index).Some? {
      var (s1, rt) := AutoCode(c, s, e.table).value;
      IndexConstantCorrect(c, s, e, [ABC(GETTABLEN, target, rt, SmallIndex(c, e.index).value)], t, target, vm, env, cfg);
    } else if e.index in c.known && c.known[e.index].CString? {
      var (s1, id) := AddConstant(s, c.known[e.index]).value;
      var (s2, rt) := AutoCode(c, s1, e.table).value;
      IndexConstantCorrect(c, s1, e, [ABC(GETTABLEKS, target, rt, 0), Aux(id, false)], t, target, vm, env, cfg);
    } else {
      IndexRegsCorrect(c, s, e, target, t, vm, env, cfg);
    }
  }

  lemma {:induction false} IndexRegsCorrect(c: Context, s: Builder, e: Expr, target: nat, t: Builder, vm: Vm, env: Env, cfg: Config)
    requires e.IndexExpr? && AutoCode(c, s, e.table).Ok? && AutoCode(c, AutoCode(c, s, e.table).value.0, e.index).Ok?
    requires
      var (s1, rt) := AutoCode(c, s, e.table).value;
      var (s2, ri) := AutoCode(c, s1, e.index).value;
      Grows(s2, t) && t.insns == s2.insns + [ABC(GETTABLE, target, rt, ri)]
    requires Placed(vm, s, t) && Ready(c, env, s, cfg, t.stackSize) && Sound(c, vm.host, env, e) && target < s.regTop
    ensures Computes(vm, cfg, |t.insns|, target, s.regTop, Eval(vm.host, env, e, cfg.world))
    decreases Size(e), 1
  {
    var (s1, _) := AutoCode(c, s, e.table).value;
    var (s2, _) := AutoCode(c, s1, e.index).value;
    PlacedPrefix(vm, s, s2, t);
    OperandsCorrect(c, s, e.table, e.index, vm, env, cfg);
    assert vm.code[|s2.insns|] == t.insns[|s2.insns|];
    TwoOperandStep(vm, Run(vm, cfg, |s2.insns|).value, Add, target, AutoCode(c, s, e.table).value.1, AutoCode(c, s1, e.index).value.1);
    Finish(vm, cfg, |s2.insns|, |t.insns|, target, s.regTop, Eval(vm.host, env, e, cfg.world));
  }

  // ----- comparisons -----

  /** A compare-and-jump whose label now leads to `goal`. */
  ghost predicate Branches(vm: Vm, s: Builder, t: Builder, cfg: Config, goal: nat, negate: bool, result: (World, bool)) {
    match Run(vm, cfg, |t.insns|)
    case None => false
    case Some(out) =>
      && out.world == result.0 && SameBelow(cfg.regs, out.regs, s.regTop)
      && out.pc == (if result.1 != negate then goal else |t.insns|)
  }

  /** The outcome of a comparison; a primitive operand makes equality symmetric and silent. */
  function EvalCompare(h: Host, env: Env, op: CompareOp, x: Expr, y: Expr, w: World): (World, bool) {
    var (w1, a) := Eval(h, env, x, w);
    var (w2, b) := Eval(h, env, y, w1);
    CompareValue(h, w2, op, a, b)
  }

  /** The opcode that compares with the constant, and the word that follows it. */
  function CompareConstantOp(k: Const): Opcode {
    match k
    case CNil => JUMPXEQKNIL
    case CBool(_) => JUMPXEQKB
    case CNumber(_) => JUMPXEQKN
    case _ => JUMPXEQKS
  }

  ghost predicate CompareConstantAux(vm: Vm, k: Const, word: nat) {
    match k
    case CNil => true
    case CBool(b) => (word != 0) == b
    case _ => word < |vm.consts| && vm.consts[word] == k
  }

  lemma CompareConstantStep(vm: Vm, cfg: Config, reg: nat, d: int, word: nat, k: Const, flip: bool)
    requires !k.CVector? && reg < |cfg.regs| && CompareConstantAux(vm, k, word) && cfg.pc + 1 < |vm.code|
    requires vm.code[cfg.pc] == AD(CompareConstantOp(k), reg, d) && vm.code[cfg.pc + 1] == Aux(word, flip)
    ensures
      var v := cfg.regs[reg];
      var t := v.Prim? && ConstEq(v.c, k);
      Step(vm.host, vm.code, vm.consts, cfg) == JumpTo(if t != flip then cfg.pc + 1 + d else cfg.pc + 2, cfg.regs, cfg.world)
  {
  }

  lemma CompareConstantCorrect(s: Builder, reg: nat, k: Const, op: CompareOp, negate: bool, vm: Vm, cfg: Config, goal: nat)
    requires !k.CVector? && (op == Eq || op == Ne)
    requires CompareConstant(s, reg, k, (op == Eq) == negate).Ok?
    requires
      var t := CompareConstant(s, reg, k, (op == Eq) == negate).value;
      PlacedFor(vm, s, t, [|s.insns|], goal) && |t.insns| <= goal
    requires cfg.pc == |s.insns| && reg < |cfg.regs|
    ensures Branches(vm, s, CompareConstant(s, reg, k, (op == Eq) == negate).value, cfg, goal, negate,
                     CompareValue(vm.host, cfg.world, op, cfg.regs[reg], Prim(k)))
  {
    var t := CompareConstant(s, reg, k, (op == Eq) == negate).value;
    var n := |s.insns|;
    assert vm.code[n] == Patched(t.insns, [n], goal, n) && vm.code[n + 1] == Patched(t.insns, [n], goal, n + 1);
    CompareConstantStep(vm, cfg, reg, goal - n - 1, t.insns[n + 1].word, k, (op == Eq) == negate);
    RunOne(vm, cfg, n + 2);
  }

  lemma CompareRegsCorrect(s: Builder, op: CompareOp, negate: bool, rl: nat, rr: nat, vm: Vm, cfg: Config, goal: nat)
    requires PlacedFor(vm, s, CompareRegs(s, op, negate, rl, rr), [|s.insns|], goal)
    requires |CompareRegs(s, op, negate, rl, rr).insns| <= goal
    requires cfg.pc == |s.insns| && rl < |cfg.regs| && rr < |cfg.regs|
    ensures Branches(vm, s, CompareRegs(s, op, negate, rl, rr), cfg, goal, negate,
                     CompareValue(vm.host, cfg.world, op, cfg.regs[rl], cfg.regs[rr]))
  {
    var t := CompareRegs(s, op, negate, rl, rr);
    var n := |s.insns|;
    assert vm.code[n] == Patched(t.insns, [n], goal, n) && vm.code[n + 1] == Patched(t.insns, [n], goal, n + 1);
    RunOne(vm, cfg, n + 2);
  }

  lemma PlacedForPrefix(vm: Vm, s: Builder, m: Builder, t: Builder, site: nat, goal: nat)
    requires PlacedFor(vm, s, t, [site], goal) && Grows(s, m) && Grows(m, t) && |m.insns| <= site
    ensures Placed(vm, s, m) && PlacedFor(vm, m, t, [site], goal)
  {
    forall i | |s.insns| <= i < |m.insns|
      ensures vm.code[i] == Patched(m.insns, [], 0, i)
    {
      assert vm.code[i] == Patched(t.insns, [site], goal, i);
      assert m.insns[i] == t.insns[i];
    }
  }

  /** Runs the rest of a comparison after its operands. */
  lemma BranchAfter(vm: Vm, s: Builder, m: Builder, t: Builder, cfg: Config, goal: nat, negate: bool, result: (World, bool))
    requires |m.insns| <= |t.insns| && s.regTop <= m.regTop
    requires Run(vm, cfg, |m.insns|).Some?
    requires SameBelow(cfg.regs, Run(vm, cfg, |m.insns|).value.regs, s.regTop)
    requires Branches(vm, m, t, Run(vm, cfg, |m.insns|).value, goal, negate, result)
    ensures Branches(vm, s, t, cfg, goal, negate, result)
  {
    RunThen(vm, cfg, |m.insns|, |t.insns|);
  }

  /** A comparison whose second operand is a constant with its own opcode. */
  lemma {:induction false} CompareWithConstant(c: Context, s: Builder, op: CompareOp, x: Expr, y: Expr, negate: bool, t: Builder,
                                               vm: Vm, env: Env, cfg: Config, goal: nat)
    requires (op == Eq || op == Ne) && y in c.known && !c.known[y].CVector?
    requires AutoCode(c, s, x).Ok?
    requires
      var (s1, rl) := AutoCode(c, s, x).value;
      && CompareConstant(s1, rl, c.known[y], (op == Eq) == negate).Ok?
      && t == CompareConstant(s1, rl, c.known[y], (op == Eq) == negate).value.(regTop := s.regTop)
      && PlacedFor(vm, s, t, [|s1.insns|], goal) && |t.insns| <= goal
    requires Ready(c, env, s, cfg, t.stackSize)
    requires Sound(c, vm.host, env, x) && Sound(c, vm.host, env, y)
    ensures Branches(vm, s, t, cfg, goal, negate, EvalCompare(vm.host, env, op, x, y, cfg.world))
    decreases 1 + Size(x) + Size(y), 0
  {
    var (s1, rl) := AutoCode(c, s, x).value;
    PlacedForPrefix(vm, s, s1, t, |s1.insns|, goal);
    AutoCorrect(c, s, x, vm, env, cfg);
    var out := Run(vm, cfg, |s1.insns|).value;
    CompareConstantCorrect(s1, rl, c.known[y], op, negate, vm, out, goal);
    BranchAfter(vm, s, s1, t, cfg, goal, negate, CompareValue(vm.host, out.world, op, out.regs[rl], Prim(c.known[y])));
  }

  lemma {:induction false} CompareWithRegister(c: Context, s: Builder, op: CompareOp, x: Expr, y: Expr, negate: bool, t: Builder,
                                               vm: Vm, env: Env, cfg: Config, goal: nat)
    requires AutoCode(c, s, x).Ok? && AutoCode(c, AutoCode(c, s, x).value.0, y).Ok?
    requires
      var (s1, rl) := AutoCode(c, s, x).value;
      var (s2, rr) := AutoCode(c, s1, y).value;
      && t == CompareRegs(s2, op, negate, rl, rr).(regTop := s.regTop)
      && PlacedFor(vm, s, t, [|s2.insns|], goal) && |t.insns| <= goal
    requires Ready(c, env, s, cfg, t.stackSize)
    requires Sound(c, vm.host, env, x) && Sound(c, vm.host, env, y)
    ensures Branches(vm, s, t, cfg, goal, negate, EvalCompare(vm.host, env, op, x, y, cfg.world))
    decreases 1 + Size(x) + Size(y), 1
  {
    var (s1, rl) := AutoCode(c, s, x).value;
    var (s2, rr) := AutoCode(c, s1, y).value;
    PlacedForPrefix(vm, s, s2, t, |s2.insns|, goal);
    OperandsCorrect(c, s, x, y, vm, env, cfg);
    var out := Run(vm, cfg, |s2.insns|).value;
    CompareRegsCorrect(s2, op, negate, rl, rr, vm, out, goal);
    BranchAfter(vm, s, s2, t, cfg, goal, negate, CompareValue(vm.host, out.world, op, out.regs[rl], out.regs[rr]));
  }

  lemma {:induction false} CompareOperandsCorrect(c: Context, s: Builder, op: CompareOp, x: Expr, y: Expr, negate: bool,
                                                  vm: Vm, env: Env, cfg: Config, goal: nat)
    requires CompareOperands(c, s, op, x, y, negate).Ok?
    requires
      var (t, site) := CompareOperands(c, s, op, x, y, negate).value;
      && PlacedFor(vm, s, t, [site], goal) && |t.insns| <= goal
      && Ready(c, env, s, cfg, t.stackSize)
    requires Sound(c, vm.host, env, x) && Sound(c, vm.host, env, y)
    ensures Branches(vm, s, CompareOperands(c, s, op, x, y, negate).value.0, cfg, goal, negate,
                     EvalCompare(vm.host, env, op, x, y, cfg.world))
    decreases 1 + Size(x) + Size(y), 2
  {
    var t := CompareOperands(c, s, op, x, y, negate).value.0;
    if (op == Eq || op == Ne) && y in c.known && !c.known[y].CVector? {
      CompareWithConstant(c, s, op, x, y, negate, t, vm, env, cfg, goal);
    } else {
      CompareWithRegister(c, s, op, x, y, negate, t, vm, env, cfg, goal);
    }
  }

  /** A constant is read without an effect, and is equal from both sides. */
  lemma SwappedCompare(c: Context, h: Host, env: Env, op: CompareOp, x: Expr, y: Expr, w: World)
    requires (op == Eq || op == Ne) && x in c.known && Sound(c, h, env, x)
    ensures EvalCompare(h, env, op, x, y, w) == EvalCompare(h, env, op, y, x, w)
  {
  }

  lemma {:induction false} CompareJumpCorrect(c: Context, s: Builder, e: Expr, negate: bool, vm: Vm, env: Env, cfg: Config, goal: nat)
    requires e.Binary? && e.bop.Compare? && CompareJump(c, s, e, negate).Ok?
    requires
      var (t, site) := CompareJump(c, s, e, negate).value;
      && PlacedFor(vm, s, t, [site], goal) && |t.insns| <= goal
      && Ready(c, env, s, cfg, t.stackSize)
    requires Sound(c, vm.host, env, e)
    ensures Branches(vm, s, CompareJump(c, s, e, negate).value.0, cfg, goal, negate,
                     EvalCompare(vm.host, env, e.bop.compare, e.left, e.right, cfg.world))
    decreases Size(e), 3, 0
  {
    var op := e.bop.compare;
    if (op == Eq || op == Ne) && e.right !in c.known && e.left in c.known {
      SwappedCompare(c, vm.host, env, op, e.left, e.right, cfg.world);
      CompareOperandsCorrect(c, s, op, e.right, e.left, negate, vm, env, cfg, goal);
    } else {
      CompareOperandsCorrect(c, s, op, e.left, e.right, negate, vm, env, cfg, goal);
    }
  }

  lemma ComparePlaced(vm: Vm, s: Builder, s1: Builder, site: nat, target: nat, t: Builder)
    requires Grows(s, s1) && |s.insns| <= site < |s1.insns|
    requires PatchJump(EmitABC(EmitABC(s1, LOADB, target, 0, 1), LOADB, target, 1, 0), site, |s1.insns| + 1) == Ok(t)
    requires Placed(vm, s, t)
    ensures var n := |s1.insns|;
      && PlacedFor(vm, s, s1, [site], n + 1)
      && vm.code[n] == ABC(LOADB, target, 0, 1) && vm.code[n + 1] == ABC(LOADB, target, 1, 0)
  {
    var n := |s1.insns|;
    assert vm.code[n] == t.insns[n] && vm.code[n + 1] == t.insns[n + 1];
    forall i | |s.insns| <= i < n
      ensures vm.code[i] == Patched(s1.insns, [site], n + 1, i)
    {
      assert vm.code[i] == Patched(t.insns, [], 0, i);
    }
  }

  lemma {:induction false} CompareCorrect(c: Context, s: Builder, e: Expr, target: nat, temp: bool, t: Builder, vm: Vm, env: Env, cfg: Config)
    requires e.Binary? && e.bop.Compare? && e !in c.known
    requires ExprCode(c, s, e, target, temp) == Ok(t) && Placed(vm, s, t) && Ready(c, env, s, cfg, t.stackSize)
    requires Sound(c, vm.host, env, e) && target < s.regTop
    ensures Computes(vm, cfg, |t.insns|, target, s.regTop, Eval(vm.host, env, e, cfg.world))
    decreases Size(e), 3, 1
  {
    var (s1, site) := CompareJump(c, s, e, false).value;
    ComparePlaced(vm, s, s1, site, target, t);
    CompareJumpCorrect(c, s, e, false, vm, env, cfg, |s1.insns| + 1);
    LoadBoolCorrect(vm, cfg, |s1.insns|, target, s.regTop, EvalCompare(vm.host, env, e.bop.compare, e.left, e.right, cfg.world));
  }

  /** The pair of loads that turns the jump of a comparison into a boolean. */
  lemma LoadBoolCorrect(vm: Vm, cfg: Config, n: nat, target: nat, top: nat, result: (World, bool))
    requires n + 1 < |vm.code| && vm.code[n] == ABC(LOADB, target, 0, 1) && vm.code[n + 1] == ABC(LOADB, target, 1, 0)
    requires Run(vm, cfg, n).Some? && target < |cfg.regs|
    requires
      var out := Run(vm, cfg, n).value;
      out.world == result.0 && SameBelow(cfg.regs, out.regs, top) && out.pc == (if result.1 then n + 1 else n)
    ensures Computes(vm, cfg, n + 2, target, top, (result.0, Prim(CBool(result.1))))
  {
    RunThen(vm, cfg, n, n + 2);
    RunOne(vm, Run(vm, cfg, n).value, n + 2);
  }

  // ----- conditions -----

  ghost predicate Decides(vm: Vm, cfg: Config, stop: nat, goal: nat, target: Option<nat>, top: nat, onlyTruth: bool,
                          result: (World, Value))
  {
    match Run(vm, cfg, stop)
    case None => false
    case Some(out) =>
      && out.world == result.0 && |out.regs| == |cfg.regs|
      && (forall r :: 0 <= r < top && r < |out.regs| && target != Some(r) ==> out.regs[r] == cfg.regs[r])
      && out.pc == (if Truthy(result.1) == onlyTruth then goal else stop)
      && (Truthy(result.1) == onlyTruth && target.Some? ==> target.value < |out.regs| && out.regs[target.value] == result.1)
  }

  ghost predicate CondReady(c: Context, s: Builder, t: Builder, labels: Labels, target: Option<nat>,
                            vm: Vm, env: Env, cfg: Config, goal: nat)
  {
    && PlacedFor(vm, s, t, labels, goal) && |t.insns| <= goal
    && Ready(c, env, s, cfg, t.stackSize)
    && (target.Some? ==> target.value < s.regTop && Free(c, target.value))
  }

  /** A condition jumps to where its labels were patched exactly when the truth of the expression
      is `onlyTruth`, and then its value is in the target. */
  lemma {:induction false} CondCorrect(c: Context, s: Builder, e: Expr, target: Option<nat>, onlyTruth: bool,
                                       vm: Vm, env: Env, cfg: Config, goal: nat)
    requires CondCode(c, s, e, target, onlyTruth).Ok?
    requires CondReady(c, s, CondCode(c, s, e, target, onlyTruth).value.0, CondCode(c, s, e, target, onlyTruth).value.1,
                       target, vm, env, cfg, goal)
    requires Sound(c, vm.host, env, e)
    ensures Decides(vm, cfg, |CondCode(c, s, e, target, onlyTruth).value.0.insns|, goal, target, s.regTop, onlyTruth,
                    Eval(vm.host, env, e, cfg.world))
    decreases Size(e), 6
  {
    var (t, labels) := CondCode(c, s, e, target, onlyTruth).value;
    if e in c.known {
      CondConstantCorrect(c, s, e, target, onlyTruth, vm, env, cfg, goal);
    } else if e.Binary? && (e.bop.And? || e.bop.Or?) {
      CondAndOrCorrect(c, s, e, target, onlyTruth, vm, env, cfg, goal);
    } else if e.Binary? && e.bop.Compare? {
      CondCompareCorrect(c, s, e, target, onlyTruth, vm, env, cfg, goal);
    } else if target.None? && e.Unary? && e.uop.Not? {
      CondCorrect(c, s, e.operand, target, !onlyTruth, vm, env, cfg, goal);
    } else if e.Group? {
      CondCorrect(c, s, e.inner, target, onlyTruth, vm, env, cfg, goal);
    } else {
      CondValueCorrect(c, s, e, target, onlyTruth, vm, env, cfg, goal);
    }
  }

  /** A jump that is always taken decides for its goal. */
  lemma JumpDecides(vm: Vm, cfg: Config, n: nat, goal: nat, target: Option<nat>, top: nat, onlyTruth: bool, result: (World, Value))
    requires n < |vm.code| && n + 1 <= goal && vm.code[n] == AD(JUMP, 0, goal - (n + 1)) && Truthy(result.1) == onlyTruth
    requires if target.Some? then Computes(vm, cfg, n, target.value, top, result) && target.value < top
             else cfg.pc == n && cfg.world == result.0
    ensures Decides(vm, cfg, n + 1, goal, target, top, onlyTruth, result)
  {
    if target.Some? {
      RunThenOne(vm, cfg, n, n + 1);
    } else {
      RunOne(vm, cfg, n + 1);
    }
  }

  lemma {:induction false} CondConstantCorrect(c: Context, s: Builder, e: Expr, target: Option<nat>, onlyTruth: bool,
                                               vm: Vm, env: Env, cfg: Config, goal: nat)
    requires e in c.known && CondCode(c, s, e, target, onlyTruth).Ok?
    requires CondReady(c, s, CondCode(c, s, e, target, onlyTruth).value.0, CondCode(c, s, e, target, onlyTruth).value.1,
                       target, vm, env, cfg, goal)
    requires Sound(c, vm.host, env, e)
    ensures Decides(vm, cfg, |CondCode(c, s, e, target, onlyTruth).value.0.insns|, goal, target, s.regTop, onlyTruth,
                    Eval(vm.host, env, e, cfg.world))
    decreases Size(e), 5
  {
    var (t, labels) := CondCode(c, s, e, target, onlyTruth).value;
    if Truthful(c.known[e]) == onlyTruth {
      var s1 := if target.Some? then ExprCode(c, s, e, target.value, true).value else s;
      var n := |s1.insns|;
      assert vm.code[n] == Patched(t.insns, [n], goal, n);
      if target.Some? {
        PlacedForPrefix(vm, s, s1, t, n, goal);
        ExprCorrect(c, s, e, target.value, true, vm, env, cfg);
      }
      JumpDecides(vm, cfg, n, goal, target, s.regTop, onlyTruth, Eval(vm.host, env, e, cfg.world));
    }
  }

  lemma {:induction false} CondCompareCorrect(c: Context, s: Builder, e: Expr, target: Option<nat>, onlyTruth: bool,
                                              vm: Vm, env: Env, cfg: Config, goal: nat)
    requires e !in c.known && e.Binary? && e.bop.Compare? && CondCode(c, s, e, target, onlyTruth).Ok?
    requires CondReady(c, s, CondCode(c, s, e, target, onlyTruth).value.0, CondCode(c, s, e, target, onlyTruth).value.1,
                       target, vm, env, cfg, goal)
    requires Sound(c, vm.host, env, e)
    ensures Decides(vm, cfg, |CondCode(c, s, e, target, onlyTruth).value.0.insns|, goal, target, s.regTop, onlyTruth,
                    Eval(vm.host, env, e, cfg.world))
    decreases Size(e), 5
  {
    var (t, labels) := CondCode(c, s, e, target, onlyTruth).value;
    if target.None? {
      CompareJumpCorrect(c, s, e, !onlyTruth, vm, env, cfg, goal);
    } else {
      var s1 := EmitABC(s, LOADB, target.value, if onlyTruth then 1 else 0, 0);
      PlacedForPrefix(vm, s, s1, t, labels[0], goal);
      CondCompareTarget(c, s, e, target.value, onlyTruth, s1, t, labels[0], vm, env, cfg, goal);
    }
  }

  /** The target is loaded with the wanted truth value first. */
  lemma LoadedReady(c: Context, env: Env, s: Builder, s1: Builder, cfg: Config, mid: Config, frame: nat, target: nat, v: Value)
    requires Ready(c, env, s, cfg, frame) && target < s.regTop && Free(c, target)
    requires s1.regTop == s.regTop && s.stackSize <= s1.stackSize <= frame
    requires mid == Config(|s1.insns|, cfg.regs[target := v], cfg.world)
    ensures Ready(c, env, s1, mid, frame)
  {
  }

  lemma LoadedDecides(vm: Vm, s1: Builder, t: Builder, cfg: Config, mid: Config, goal: nat, target: nat, onlyTruth: bool,
                      result: (World, bool))
    requires |s1.insns| <= |t.insns| && target < s1.regTop && target < |cfg.regs|
    requires Run(vm, cfg, |s1.insns|) == Some(mid)
    requires mid == Config(|s1.insns|, cfg.regs[target := Prim(CBool(onlyTruth))], cfg.world)
    requires Branches(vm, s1, t, mid, goal, !onlyTruth, result)
    ensures Decides(vm, cfg, |t.insns|, goal, Some(target), s1.regTop, onlyTruth, (result.0, Prim(CBool(result.1))))
  {
    RunThen(vm, cfg, |s1.insns|, |t.insns|);
  }

  lemma {:induction false} CondCompareTarget(c: Context, s: Builder, e: Expr, target: nat, onlyTruth: bool, s1: Builder, t: Builder, site: nat,
                                             vm: Vm, env: Env, cfg: Config, goal: nat)
    requires e.Binary? && e.bop.Compare? && s1 == EmitABC(s, LOADB, target, if onlyTruth then 1 else 0, 0)
    requires CompareJump(c, s1, e, !onlyTruth) == Ok((t, site))
    requires Placed(vm, s, s1) && PlacedFor(vm, s1, t, [site], goal) && |t.insns| <= goal
    requires Ready(c, env, s, cfg, t.stackSize) && Sound(c, vm.host, env, e) && target < s.regTop && Free(c, target)
    ensures Decides(vm, cfg, |t.insns|, goal, Some(target), s.regTop, onlyTruth, Eval(vm.host, env, e, cfg.world))
    decreases Size(e), 4
  {
    var n := |s.insns|;
    assert vm.code[n] == Patched(s1.insns, [], 0, n);
    LoadBoolOne(vm, cfg, target, onlyTruth);
    var mid := Run(vm, cfg, n + 1).value;
    LoadedReady(c, env, s, s1, cfg, mid, t.stackSize, target, Prim(CBool(onlyTruth)));
    CompareJumpCorrect(c, s1, e, !onlyTruth, vm, env, mid, goal);
    LoadedDecides(vm, s1, t, cfg, mid, goal, target, onlyTruth, EvalCompare(vm.host, env, e.bop.compare, e.left, e.right, cfg.world));
  }

  lemma LoadBoolOne(vm: Vm, cfg: Config, target: nat, b: bool)
    requires cfg.pc < |vm.code| && target < |cfg.regs| && vm.code[cfg.pc] == ABC(LOADB, target, if b then 1 else 0, 0)
    ensures Run(vm, cfg, cfg.pc + 1) == Some(Config(cfg.pc + 1, cfg.regs[target := Prim(CBool(b))], cfg.world))
  {
    RunOne(vm, cfg, cfg.pc + 1);
  }

  lemma {:induction false} CondValueCorrect(c: Context, s: Builder, e: Expr, target: Option<nat>, onlyTruth: bool,
                                            vm: Vm, env: Env, cfg: Config, goal: nat)
    requires CondValue(c, s, e, target, onlyTruth).Ok?
    requires CondReady(c, s, CondValue(c, s, e, target, onlyTruth).value.0, CondValue(c, s, e, target, onlyTruth).value.1,
                       target, vm, env, cfg, goal)
    requires Sound(c, vm.host, env, e)
    ensures Decides(vm, cfg, |CondValue(c, s, e, target, onlyTruth).value.0.insns|, goal, target, s.regTop, onlyTruth,
                    Eval(vm.host, env, e, cfg.world))
    decreases Size(e), 5, 1
  {
    var (t, labels) := CondValue(c, s, e, target, onlyTruth).value;
    if target.Some? {
      var s1 := ExprCode(c, s, e, target.value, true).value;
      PlacedForPrefix(vm, s, s1, t, |s1.insns|, goal);
      ExprCorrect(c, s, e, target.value, true, vm, env, cfg);
      TestCorrect(vm, cfg, s1, t, target.value, onlyTruth, goal);
    } else {
      var (s1, r) := AutoCode(c, s, e).value;
      PlacedForPrefix(vm, s, s1, t, |s1.insns|, goal);
      AutoCorrect(c, s, e, vm, env, cfg);
      TestCorrect(vm, cfg, s1, t, r, onlyTruth, goal);
    }
  }

  /** A test of a register after a run that computed it. */
  lemma TestCorrect(vm: Vm, cfg: Config, m: Builder, t: Builder, reg: nat, onlyTruth: bool, goal: nat)
    requires t.insns == m.insns + [AD(if onlyTruth then JUMPIF else JUMPIFNOT, reg, 0)]
    requires PlacedFor(vm, m, t, [|m.insns|], goal) && |t.insns| <= goal
    requires Run(vm, cfg, |m.insns|).Some? && Run(vm, cfg, |m.insns|).value.pc == |m.insns|
    requires reg < |Run(vm, cfg, |m.insns|).value.regs|
    ensures
      var out := Run(vm, cfg, |m.insns|).value;
      Run(vm, cfg, |t.insns|) == Some(out.(pc := if Truthy(out.regs[reg]) == onlyTruth then goal else |t.insns|))
  {
    var n := |m.insns|;
    assert vm.code[n] == Patched(t.insns, [n], goal, n);
    RunThenOne(vm, cfg, n, n + 1);
  }

  /** Splits the placement of two consecutive conditions, the first of which was patched inside. */
  lemma PlacedForSplit(vm: Vm, s: Builder, m: Builder, t: Builder, u: Builder, first: Labels, inner: int, second: Labels, goal: int)
    requires Grows(s, m) && Grows(m, t) && |u.insns| == |t.insns| && u.constants == t.constants
    requires Within(first, |s.insns|, |m.insns|) && Within(second, |m.insns|, |t.insns|)
    requires forall i :: 0 <= i < |t.insns| ==> u.insns[i] == Patched(t.insns, first, inner, i)
    requires PlacedFor(vm, s, u, second, goal)
    ensures PlacedFor(vm, s, m, first, inner) && PlacedFor(vm, m, t, second, goal)
  {
    forall i | |s.insns| <= i < |m.insns|
      ensures vm.code[i] == Patched(m.insns, first, inner, i)
    {
      assert vm.code[i] == Patched(u.insns, second, goal, i);
      assert i !in second && m.insns[i] == t.insns[i];
    }
    forall i | |m.insns| <= i < |t.insns|
      ensures vm.code[i] == Patched(t.insns, second, goal, i)
    {
      assert vm.code[i] == Patched(u.insns, second, goal, i);
      assert i !in first;
    }
  }

  /** The right side runs if the left one falls through, and decides then. */
  lemma ElseDecides(vm: Vm, cfg: Config, out: Config, mid: nat, stop: nat, goal: nat, target: Option<nat>, top: nat,
                    onlyTruth: bool, left: (World, Value), right: (World, Value))
    requires mid <= stop && Run(vm, cfg, mid) == Some(out)
    requires Decides(vm, cfg, mid, stop, None, top, !onlyTruth, left)
    requires Truthy(left.1) == onlyTruth ==> Decides(vm, out, stop, goal, target, top, onlyTruth, right)
    ensures Decides(vm, cfg, stop, goal, target, top, onlyTruth, if Truthy(left.1) == onlyTruth then right else left)
  {
    RunThen(vm, cfg, mid, stop);
  }

  lemma ElsePlaced(c: Context, s: Builder, e: Expr, target: Option<nat>, onlyTruth: bool, s1: Builder, elseJump: Labels,
                   s2: Builder, skip: Labels, t: Builder, vm: Vm, goal: nat)
    requires e.Binary? && CondCode(c, s, e.left, None, !onlyTruth) == Ok((s1, elseJump))
    requires CondCode(c, s1, e.right, target, onlyTruth) == Ok((s2, skip))
    requires PatchJumps(s2, elseJump, |s2.insns|) == Ok(t) && PlacedFor(vm, s, t, skip, goal)
    ensures PlacedFor(vm, s, s1, elseJump, |s2.insns|) && PlacedFor(vm, s1, s2, skip, goal)
    ensures Grows(s, s1) && Grows(s1, s2) && s1.regTop == s.regTop && |t.insns| == |s2.insns|
    ensures s.stackSize <= s1.stackSize <= s2.stackSize == t.stackSize
  {
    PlacedForSplit(vm, s, s1, s2, t, elseJump, |s2.insns|, skip, goal);
  }

  /** After the left side has fallen through, the right side can run. */
  lemma ReadyAfter(c: Context, s: Builder, s1: Builder, vm: Vm, env: Env, cfg: Config, out: Config, goal: nat, onlyTruth: bool,
                   result: (World, Value), stackSize: nat)
    requires Ready(c, env, s, cfg, stackSize) && s1.regTop == s.regTop && s.stackSize <= s1.stackSize <= stackSize
    requires Decides(vm, cfg, |s1.insns|, goal, None, s.regTop, onlyTruth, result) && Run(vm, cfg, |s1.insns|) == Some(out)
    requires Truthy(result.1) != onlyTruth
    ensures Ready(c, env, s1, out, stackSize)
  {
  }

  /** The left side can only fail the condition, and is skipped over when it does. */
  lemma {:induction false} CondElseCorrect(c: Context, s: Builder, e: Expr, target: Option<nat>, onlyTruth: bool,
                                           s1: Builder, elseJump: Labels, s2: Builder, skip: Labels, t: Builder,
                                           vm: Vm, env: Env, cfg: Config, goal: nat)
    requires e.Binary? && (e.bop.And? || e.bop.Or?) && onlyTruth == e.bop.And?
    requires CondCode(c, s, e.left, None, !onlyTruth) == Ok((s1, elseJump))
    requires CondCode(c, s1, e.right, target, onlyTruth) == Ok((s2, skip))
    requires PatchJumps(s2, elseJump, |s2.insns|) == Ok(t)
    requires CondReady(c, s, t, skip, target, vm, env, cfg, goal)
    requires Sound(c, vm.host, env, e)
    ensures Decides(vm, cfg, |t.insns|, goal, target, s.regTop, onlyTruth, Eval(vm.host, env, e, cfg.world))
    decreases Size(e), 4
  {
    var n := |s2.insns|;
    ElsePlaced(c, s, e, target, onlyTruth, s1, elseJump, s2, skip, t, vm, goal);
    CondCorrect(c, s, e.left, None, !onlyTruth, vm, env, cfg, n);
    var out := Run(vm, cfg, |s1.insns|).value;
    var left := Eval(vm.host, env, e.left, cfg.world);
    if Truthy(left.1) == onlyTruth {
      ReadyAfter(c, s, s1, vm, env, cfg, out, n, !onlyTruth, left, t.stackSize);
      CondCorrect(c, s1, e.right, target, onlyTruth, vm, env, out, goal);
    }
    ElseDecides(vm, cfg, out, |s1.insns|, n, goal, target, s.regTop, onlyTruth, left, Eval(vm.host, env, e.right, left.0));
  }

  lemma ThenPlaced(vm: Vm, s: Builder, s1: Builder, skip1: Labels, s2: Builder, skip2: Labels, goal: nat)
    requires Grows(s, s1) && Grows(s1, s2) && Within(skip1, |s.insns|, |s1.insns|) && Within(skip2, |s1.insns|, |s2.insns|)
    requires PlacedFor(vm, s, s2, skip1 + skip2, goal)
    ensures PlacedFor(vm, s, s1, skip1, goal) && PlacedFor(vm, s1, s2, skip2, goal)
  {
    forall i | |s.insns| <= i < |s1.insns|
      ensures vm.code[i] == Patched(s1.insns, skip1, goal, i)
    {
      assert vm.code[i] == Patched(s2.insns, skip1 + skip2, goal, i) && i !in skip2;
    }
    forall i | |s1.insns| <= i < |s2.insns|
      ensures vm.code[i] == Patched(s2.insns, skip2, goal, i)
    {
      assert vm.code[i] == Patched(s2.insns, skip1 + skip2, goal, i) && i !in skip1;
    }
  }

  /** The right side runs if the left one falls through; otherwise the left one has jumped to the goal. */
  lemma ThenDecides(vm: Vm, cfg: Config, out: Config, mid: nat, stop: nat, goal: nat, target: Option<nat>, top: nat,
                    onlyTruth: bool, left: (World, Value), right: (World, Value))
    requires mid <= stop <= goal && Run(vm, cfg, mid) == Some(out)
    requires Decides(vm, cfg, mid, goal, target, top, onlyTruth, left)
    requires Truthy(left.1) != onlyTruth ==> Decides(vm, out, stop, goal, target, top, onlyTruth, right)
    ensures Decides(vm, cfg, stop, goal, target, top, onlyTruth, if Truthy(left.1) == onlyTruth then left else right)
  {
    RunThen(vm, cfg, mid, stop);
  }

  /** The left side can meet the condition, and jumps out when it does. */
  lemma {:induction false} CondThenCorrect(c: Context, s: Builder, e: Expr, target: Option<nat>, onlyTruth: bool,
                                           s1: Builder, skip1: Labels, s2: Builder, skip2: Labels,
                                           vm: Vm, env: Env, cfg: Config, goal: nat)
    requires e.Binary? && (e.bop.And? || e.bop.Or?) && onlyTruth != e.bop.And?
    requires CondCode(c, s, e.left, target, onlyTruth) == Ok((s1, skip1))
    requires CondCode(c, s1, e.right, target, onlyTruth) == Ok((s2, skip2))
    requires CondReady(c, s, s2, skip1 + skip2, target, vm, env, cfg, goal)
    requires Sound(c, vm.host, env, e)
    ensures Decides(vm, cfg, |s2.insns|, goal, target, s.regTop, onlyTruth, Eval(vm.host, env, e, cfg.world))
    decreases Size(e), 4
  {
    ThenPlaced(vm, s, s1, skip1, s2, skip2, goal);
    CondCorrect(c, s, e.left, target, onlyTruth, vm, env, cfg, goal);
    var out := Run(vm, cfg, |s1.insns|).value;
    var left := Eval(vm.host, env, e.left, cfg.world);
    if Truthy(left.1) != onlyTruth {
      CondCorrect(c, s1, e.right, target, onlyTruth, vm, env, out, goal);
    }
    ThenDecides(vm, cfg, out, |s1.insns|, |s2.insns|, goal, target, s.regTop, onlyTruth, left, Eval(vm.host, env, e.right, left.0));
  }

  lemma {:induction false} CondAndOrCorrect(c: Context, s: Builder, e: Expr, target: Option<nat>, onlyTruth: bool,
                                            vm: Vm, env: Env, cfg: Config, goal: nat)
    requires e.Binary? && (e.bop.And? || e.bop.Or?) && CondAndOr(c, s, e, target, onlyTruth).Ok?
    requires CondReady(c, s, CondAndOr(c, s, e, target, onlyTruth).value.0, CondAndOr(c, s, e, target, onlyTruth).value.1,
                       target, vm, env, cfg, goal)
    requires Sound(c, vm.host, env, e)
    ensures Decides(vm, cfg, |CondAndOr(c, s, e, target, onlyTruth).value.0.insns|, goal, target, s.regTop, onlyTruth,
                    Eval(vm.host, env, e, cfg.world))
    decreases Size(e), 5
  {
    var (t, labels) := CondAndOr(c, s, e, target, onlyTruth).value;
    if onlyTruth == e.bop.And? {
      var (s1, elseJump) := CondCode(c, s, e.left, None, !onlyTruth).value;
      var (s2, skip) := CondCode(c, s1, e.right, target, onlyTruth).value;
      CondElseCorrect(c, s, e, target, onlyTruth, s1, elseJump, s2, skip, t, vm, env, cfg, goal);
    } else {
      var (s1, skip1) := CondCode(c, s, e.left, target, onlyTruth).value;
      var (s2, skip2) := CondCode(c, s1, e.right, target, onlyTruth).value;
      CondThenCorrect(c, s, e, target, onlyTruth, s1, skip1, s2, skip2, vm, env, cfg, goal);
    }
  }

  // ----- and, or, if-else -----

  lemma {:induction false} AndOrJumpsCorrect(c: Context, s: Builder, e: Expr, reg: nat, vm: Vm, env: Env, cfg: Config)
    requires e.Binary? && (e.bop.And? || e.bop.Or?) && AndOrJumps(c, s, e, reg).Ok?
    requires Placed(vm, s, AndOrJumps(c, s, e, reg).value)
    requires Ready(c, env, s, cfg, AndOrJumps(c, s, e, reg).value.stackSize)
    requires Sound(c, vm.host, env, e) && reg < s.regTop && Free(c, reg)
    ensures Computes(vm, cfg, |AndOrJumps(c, s, e, reg).value.insns|, reg, s.regTop, Eval(vm.host, env, e, cfg.world))
    decreases Size(e), 2, 0
  {
    var t := AndOrJumps(c, s, e, reg).value;
    var (s1, skip) := CondCode(c, s, e.left, Some(reg), e.bop.Or?).value;
    var s2 := ExprCode(c, s1, e.right, reg, true).value;
    var n := |s2.insns|;
    PlacedForSplit(vm, s, s1, s2, t, skip, n, [], 0);
    CondCorrect(c, s, e.left, Some(reg), e.bop.Or?, vm, env, cfg, n);
    RunThen(vm, cfg, |s1.insns|, n);
    var out := Run(vm, cfg, |s1.insns|).value;
    if Truthy(Eval(vm.host, env, e.left, cfg.world).1) != e.bop.Or? {
      ExprCorrect(c, s1, e.right, reg, true, vm, env, out);
    }
  }

  function AndOrOpcode(and: bool, constant: bool): Opcode {
    if constant then (if and then ANDK else ORK) else if and then ANDR else ORR
  }

  lemma AndOrStep(vm: Vm, cfg: Config, and: bool, constant: bool, target: nat, first: nat, second: nat, value: Value)
    requires cfg.pc < |vm.code| && vm.code[cfg.pc] == ABC(AndOrOpcode(and, constant), target, first, second)
    requires first < |cfg.regs|
    requires if constant then second < |vm.consts| && Prim(vm.consts[second]) == value
             else second < |cfg.regs| && cfg.regs[second] == value
    ensures
      var v := cfg.regs[first];
      Step(vm.host, vm.code, vm.consts, cfg)
      == Put(cfg.pc + 1, cfg.regs, target, (cfg.world, if Truthy(v) == and then value else v))
  {
  }

  /** A second operand that needs no code: a local, or a constant. */
  ghost predicate ReadyOperand(c: Context, t: Builder, e: Expr, constant: bool, second: nat) {
    if constant then e in c.known && second < |t.constants| && t.constants[second] == c.known[e]
    else LocalReg(c, e) == Some(second)
  }

  /** An `and` or `or` of an evaluated left side with an operand that needs no code. */
  lemma {:induction false} AndOrOperandCorrect(c: Context, s: Builder, e: Expr, constant: bool, second: nat, t: Builder, target: nat,
                                               vm: Vm, env: Env, cfg: Config)
    requires e.Binary? && (e.bop.And? || e.bop.Or?) && AutoCode(c, s, e.left).Ok?
    requires
      var (s1, lr) := AutoCode(c, s, e.left).value;
      Grows(s1, t) && t.insns == s1.insns + [ABC(AndOrOpcode(e.bop.And?, constant), target, lr, second)]
    requires ReadyOperand(c, t, e.right, constant, second)
    requires Placed(vm, s, t) && Ready(c, env, s, cfg, t.stackSize) && Sound(c, vm.host, env, e) && target < s.regTop
    ensures Computes(vm, cfg, |t.insns|, target, s.regTop, Eval(vm.host, env, e, cfg.world))
    decreases Size(e), 1
  {
    var (s1, lr) := AutoCode(c, s, e.left).value;
    PlacedPrefix(vm, s, s1, t);
    AutoCorrect(c, s, e.left, vm, env, cfg);
    var n := |s1.insns|;
    assert vm.code[n] == t.insns[n];
    var out := Run(vm, cfg, n).value;
    OperandEval(c, s1, t, e.right, constant, second, vm, env, out);
    AndOrStep(vm, out, e.bop.And?, constant, target, lr, second, Eval(vm.host, env, e.right, out.world).1);
    Finish(vm, cfg, n, |t.insns|, target, s.regTop, Eval(vm.host, env, e, cfg.world));
  }

  lemma OperandEval(c: Context, s: Builder, t: Builder, e: Expr, constant: bool, second: nat, vm: Vm, env: Env, cfg: Config)
    requires ReadyOperand(c, t, e, constant, second)
    requires Ready(c, env, s, cfg, t.stackSize) && Sound(c, vm.host, env, e) && t.constants <= vm.consts
    ensures Eval(vm.host, env, e, cfg.world).0 == cfg.world
    ensures
      var value := Eval(vm.host, env, e, cfg.world).1;
      if constant then second < |vm.consts| && Prim(vm.consts[second]) == value
      else second < |cfg.regs| && cfg.regs[second] == value
  {
    if constant {
      assert vm.consts[second] == c.known[e];
    } else {
      LocalRegEval(c, vm.host, env, s, cfg, t.stackSize, e, cfg.world);
    }
  }

  lemma {:induction false} AndOrCorrect(c: Context, s: Builder, e: Expr, target: nat, temp: bool, vm: Vm, env: Env, cfg: Config)
    requires e.Binary? && (e.bop.And? || e.bop.Or?) && AndOrCode(c, s, e, target, temp).Ok?
    requires Placed(vm, s, AndOrCode(c, s, e, target, temp).value)
    requires Ready(c, env, s, cfg, AndOrCode(c, s, e, target, temp).value.stackSize)
    requires Sound(c, vm.host, env, e) && target < s.regTop && (temp ==> Free(c, target))
    ensures Computes(vm, cfg, |AndOrCode(c, s, e, target, temp).value.insns|, target, s.regTop, Eval(vm.host, env, e, cfg.world))
    decreases Size(e), 3
  {
    var t := AndOrCode(c, s, e, target, temp).value;
    var and := e.bop.And?;
    if e.left in c.known {
      AndOrKnownCorrect(c, s, e, target, temp, vm, env, cfg);
    } else if !IsConditionFast(c, e.left) && LocalReg(c, e.right).Some? {
      AndOrOperandCorrect(c, s, e, false, LocalReg(c, e.right).value, t, target, vm, env, cfg);
    } else {
      var (s1, id) := if IsConditionFast(c, e.left) then (s, None) else ConstantIndex(c, s, e.right).value;
      if id.Some? && id.value <= 255 {
        AndOrOperandCorrect(c, s1, e, true, id.value, t, target, vm, env, cfg);
      } else if temp {
        AndOrJumpsCorrect(c, s1, e, target, vm, env, cfg);
      } else {
        AndOrMoveCorrect(c, s1, e, target, t, vm, env, cfg);
      }
    }
  }

  lemma {:induction false} AndOrKnownCorrect(c: Context, s: Builder, e: Expr, target: nat, temp: bool, vm: Vm, env: Env, cfg: Config)
    requires e.Binary? && (e.bop.And? || e.bop.Or?) && e.left in c.known
    requires
      var x := if e.bop.And? == Truthful(c.known[e.left]) then e.right else e.left;
      && ExprCode(c, s, x, target, temp).Ok?
      && var t := ExprCode(c, s, x, target, temp).value;
         Placed(vm, s, t) && Ready(c, env, s, cfg, t.stackSize)
    requires Sound(c, vm.host, env, e) && target < s.regTop && (temp ==> Free(c, target))
    ensures
      var x := if e.bop.And? == Truthful(c.known[e.left]) then e.right else e.left;
      Computes(vm, cfg, |ExprCode(c, s, x, target, temp).value.insns|, target, s.regTop, Eval(vm.host, env, e, cfg.world))
    decreases Size(e), 2
  {
    var k := c.known[e.left];
    assert Eval(vm.host, env, e.left, cfg.world) == (cfg.world, Prim(k));
    ExprCorrect(c, s, if e.bop.And? == Truthful(k) then e.right else e.left, target, temp, vm, env, cfg);
  }

  /** Through a fresh register, when the target may still be read. */
  lemma {:induction false} AndOrMoveCorrect(c: Context, s: Builder, e: Expr, target: nat, t: Builder, vm: Vm, env: Env, cfg: Config)
    requires e.Binary? && (e.bop.And? || e.bop.Or?)
    requires AllocReg(s, 1).Ok? && AndOrJumps(c, AllocReg(s, 1).value, e, s.regTop).Ok?
    requires
      var s3 := AndOrJumps(c, AllocReg(s, 1).value, e, s.regTop).value;
      Grows(s3, t) && t.insns == s3.insns + [ABC(MOVE, target, s.regTop, 0)]
    requires Placed(vm, s, t) && Ready(c, env, s, cfg, t.stackSize) && Sound(c, vm.host, env, e) && target < s.regTop
    ensures Computes(vm, cfg, |t.insns|, target, s.regTop, Eval(vm.host, env, e, cfg.world))
    decreases Size(e), 2, 1
  {
    var s2 := AllocReg(s, 1).value;
    var s3 := AndOrJumps(c, s2, e, s.regTop).value;
    PlacedPrefix(vm, s2, s3, t);
    AndOrJumpsCorrect(c, s2, e, s.regTop, vm, env, cfg);
    assert vm.code[|s3.insns|] == t.insns[|s3.insns|];
    Finish(vm, cfg, |s3.insns|, |t.insns|, target, s.regTop, Eval(vm.host, env, e, cfg.world));
  }

  /** `if v then v else e` is `v or e`, and `if v then e else v` is `v and e`, for a local v. */
  predicate IsAndOr(c: Context, e: Expr, and: bool)
    requires e.IfElse?
  {
    var same, other := if and then e.elseExpr else e.thenExpr, if and then e.thenExpr else e.elseExpr;
    LocalReg(c, e.cond).Some? && LocalReg(c, e.cond) == LocalReg(c, same) && (LocalReg(c, other).Some? || other in c.known)
  }

  lemma {:induction false} IfElseAndOrCorrect(c: Context, s: Builder, e: Expr, and: bool, target: nat, t: Builder,
                                              vm: Vm, env: Env, cfg: Config)
    requires e.IfElse? && IsAndOr(c, e, and)
    requires IfElseAndOr(c, s, and, LocalReg(c, e.cond).value, if and then e.thenExpr else e.elseExpr, target) == Ok(t)
    requires Placed(vm, s, t) && Ready(c, env, s, cfg, t.stackSize) && Sound(c, vm.host, env, e) && target < s.regTop
    ensures Computes(vm, cfg, |t.insns|, target, s.regTop, Eval(vm.host, env, e, cfg.world))
    decreases Size(e), 2
  {
    var creg := LocalReg(c, e.cond).value;
    var other := if and then e.thenExpr else e.elseExpr;
    var (s1, id) := ConstantIndex(c, s, other).value;
    IfElseAndOrMeaning(c, s, e, and, t, vm, env, cfg);
    var value := Eval(vm.host, env, other, cfg.world).1;
    if id.Some? && id.value <= 255 {
      OperandEval(c, s, t, other, true, id.value, vm, env, cfg);
      assert vm.code[cfg.pc] == t.insns[cfg.pc];
      AndOrStep(vm, cfg, and, true, target, creg, id.value, value);
      RunOne(vm, cfg, |t.insns|);
    } else {
      var (s2, oreg) := AutoCode(c, s1, other).value;
      IfElseOperandCorrect(c, s1, other, and, creg, target, s2, oreg, t, vm, env, cfg);
    }
  }

  lemma {:induction false} IfElseOperandCorrect(c: Context, s: Builder, other: Expr, and: bool, creg: nat, target: nat,
                                                s2: Builder, oreg: nat, t: Builder, vm: Vm, env: Env, cfg: Config)
    requires AutoCode(c, s, other) == Ok((s2, oreg)) && creg < s.regTop
    requires Grows(s2, t) && t.insns == s2.insns + [ABC(AndOrOpcode(and, false), target, creg, oreg)]
    requires Placed(vm, s, t) && Ready(c, env, s, cfg, t.stackSize) && Sound(c, vm.host, env, other) && target < s.regTop
    ensures
      var v := cfg.regs[creg];
      var (w, o) := Eval(vm.host, env, other, cfg.world);
      Computes(vm, cfg, |t.insns|, target, s.regTop, (w, if Truthy(v) == and then o else v))
    decreases Size(other), 6
  {
    PlacedPrefix(vm, s, s2, t);
    AutoCorrect(c, s, other, vm, env, cfg);
    assert vm.code[|s2.insns|] == t.insns[|s2.insns|];
    AndOrFinish(vm, cfg, |s2.insns|, and, target, creg, oreg, s.regTop, Eval(vm.host, env, other, cfg.world));
  }

  /** The second operand was computed; the first one is a register from before. */
  lemma AndOrFinish(vm: Vm, cfg: Config, n: nat, and: bool, target: nat, creg: nat, oreg: nat, top: nat, other: (World, Value))
    requires n < |vm.code| && vm.code[n] == ABC(AndOrOpcode(and, false), target, creg, oreg) && target < |cfg.regs| && creg < top
    requires creg < |cfg.regs| && Run(vm, cfg, n).Some?
    requires
      var out := Run(vm, cfg, n).value;
      && out.pc == n && out.world == other.0 && SameBelow(cfg.regs, out.regs, top)
      && oreg < |out.regs| && out.regs[oreg] == other.1
    ensures var v := cfg.regs[creg]; Computes(vm, cfg, n + 1, target, top, (other.0, if Truthy(v) == and then other.1 else v))
  {
    var v := cfg.regs[creg];
    AndOrStep(vm, Run(vm, cfg, n).value, and, false, target, creg, oreg, other.1);
    Finish(vm, cfg, n, n + 1, target, top, (other.0, if Truthy(v) == and then other.1 else v));
  }

  lemma IfElseAndOrMeaning(c: Context, s: Builder, e: Expr, and: bool, t: Builder, vm: Vm, env: Env, cfg: Config)
    requires e.IfElse? && IsAndOr(c, e, and)
    requires Ready(c, env, s, cfg, t.stackSize) && Sound(c, vm.host, env, e)
    ensures LocalReg(c, e.cond).value < s.regTop
    ensures
      var other := if and then e.thenExpr else e.elseExpr;
      var v := cfg.regs[LocalReg(c, e.cond).value];
      var (w, o) := Eval(vm.host, env, other, cfg.world);
      w == cfg.world && Eval(vm.host, env, e, cfg.world) == (w, if Truthy(v) == and then o else v)
  {
    var other, same := if and then e.thenExpr else e.elseExpr, if and then e.elseExpr else e.thenExpr;
    LocalRegEval(c, vm.host, env, s, cfg, t.stackSize, e.cond, cfg.world);
    LocalRegEval(c, vm.host, env, s, cfg, t.stackSize, same, cfg.world);
    if LocalReg(c, other).Some? {
      LocalRegEval(c, vm.host, env, s, cfg, t.stackSize, other, cfg.world);
    }
  }

  /** Both branches, with a jump between them. */
  lemma {:induction false} IfElseJumpsCorrect(c: Context, s: Builder, e: Expr, target: nat, temp: bool,
                                              s1: Builder, elseJump: Labels, s2: Builder, s4: Builder, s5: Builder, t: Builder,
                                              vm: Vm, env: Env, cfg: Config)
    requires e.IfElse? && CondCode(c, s, e.cond, None, false) == Ok((s1, elseJump))
    requires ExprCode(c, s1, e.thenExpr, target, temp) == Ok(s2)
    requires ExprCode(c, EmitAD(s2, JUMP, 0, 0), e.elseExpr, target, temp) == Ok(s4)
    requires PatchJumps(s4, elseJump, |s2.insns| + 1) == Ok(s5) && PatchJump(s5, |s2.insns|, |s4.insns|) == Ok(t)
    requires Placed(vm, s, t) && Ready(c, env, s, cfg, t.stackSize) && Sound(c, vm.host, env, e)
    requires target < s.regTop && (temp ==> Free(c, target))
    ensures Computes(vm, cfg, |t.insns|, target, s.regTop, Eval(vm.host, env, e, cfg.world))
    decreases Size(e), 2
  {
    IfElsePlaced(s, s1, elseJump, s2, s4, s5, t, vm);
    IfElseRuns(c, s, e, target, temp, s1, elseJump, s2, s4, vm, env, cfg);
  }

  lemma {:induction false} IfElseRuns(c: Context, s: Builder, e: Expr, target: nat, temp: bool,
                                      s1: Builder, elseJump: Labels, s2: Builder, s4: Builder, vm: Vm, env: Env, cfg: Config)
    requires e.IfElse? && CondCode(c, s, e.cond, None, false) == Ok((s1, elseJump))
    requires ExprCode(c, s1, e.thenExpr, target, temp) == Ok(s2)
    requires ExprCode(c, EmitAD(s2, JUMP, 0, 0), e.elseExpr, target, temp) == Ok(s4)
    requires PlacedFor(vm, s, s1, elseJump, |s2.insns| + 1) && Placed(vm, s1, s2) && Placed(vm, EmitAD(s2, JUMP, 0, 0), s4)
    requires |s2.insns| < |vm.code| && vm.code[|s2.insns|] == AD(JUMP, 0, |s4.insns| - |s2.insns| - 1)
    requires Ready(c, env, s, cfg, s4.stackSize) && Sound(c, vm.host, env, e)
    requires target < s.regTop && (temp ==> Free(c, target))
    ensures Computes(vm, cfg, |s4.insns|, target, s.regTop, Eval(vm.host, env, e, cfg.world))
    decreases Size(e), 1
  {
    var n, end := |s2.insns|, |s4.insns|;
    CondCorrect(c, s, e.cond, None, false, vm, env, cfg, n + 1);
    RunThen(vm, cfg, |s1.insns|, end);
    var out := Run(vm, cfg, |s1.insns|).value;
    if Truthy(Eval(vm.host, env, e.cond, cfg.world).1) {
      ExprCorrect(c, s1, e.thenExpr, target, temp, vm, env, out);
      JumpAfter(vm, out, n, end, target, s.regTop, Eval(vm.host, env, e, cfg.world));
    } else {
      ExprCorrect(c, EmitAD(s2, JUMP, 0, 0), e.elseExpr, target, temp, vm, env, out);
    }
  }

  lemma JumpAfter(vm: Vm, cfg: Config, mid: nat, stop: nat, target: nat, top: nat, result: (World, Value))
    requires Computes(vm, cfg, mid, target, top, result)
    requires mid < stop && mid < |vm.code| && vm.code[mid] == AD(JUMP, 0, stop - mid - 1)
    ensures Computes(vm, cfg, stop, target, top, result)
  {
    RunThenOne(vm, cfg, mid, stop);
  }

  lemma IfElsePlaced(s: Builder, s1: Builder, elseJump: Labels, s2: Builder, s4: Builder, s5: Builder, t: Builder, vm: Vm)
    requires Grows(s, s1) && Within(elseJump, |s.insns|, |s1.insns|)
    requires Grows(s1, s2) && Grows(EmitAD(s2, JUMP, 0, 0), s4)
    requires PatchJumps(s4, elseJump, |s2.insns| + 1) == Ok(s5) && PatchJump(s5, |s2.insns|, |s4.insns|) == Ok(t)
    requires Placed(vm, s, t)
    ensures PlacedFor(vm, s, s1, elseJump, |s2.insns| + 1) && Placed(vm, s1, s2)
    ensures vm.code[|s2.insns|] == AD(JUMP, 0, |s4.insns| - |s2.insns| - 1)
    ensures Placed(vm, EmitAD(s2, JUMP, 0, 0), s4)
  {
    var n := |s2.insns|;
    assert forall i :: 0 <= i < |s1.insns| ==> s4.insns[i] == s1.insns[i];
    assert forall i :: 0 <= i < n ==> s4.insns[i] == s2.insns[i];
    forall i | |s.insns| <= i < |s4.insns|
      ensures vm.code[i] == if i == n then AD(JUMP, 0, |s4.insns| - n - 1) else Patched(s4.insns, elseJump, n + 1, i)
    {
      assert vm.code[i] == Patched(t.insns, [], 0, i);
    }
  }

  lemma {:induction false} IfElseKnownCorrect(c: Context, s: Builder, e: Expr, target: nat, temp: bool, vm: Vm, env: Env, cfg: Config)
    requires e.IfElse? && e.cond in c.known
    requires
      var x := if Truthful(c.known[e.cond]) then e.thenExpr else e.elseExpr;
      && ExprCode(c, s, x, target, temp).Ok?
      && var t := ExprCode(c, s, x, target, temp).value;
         Placed(vm, s, t) && Ready(c, env, s, cfg, t.stackSize)
    requires Sound(c, vm.host, env, e) && target < s.regTop && (temp ==> Free(c, target))
    ensures
      var x := if Truthful(c.known[e.cond]) then e.thenExpr else e.elseExpr;
      Computes(vm, cfg, |ExprCode(c, s, x, target, temp).value.insns|, target, s.regTop, Eval(vm.host, env, e, cfg.world))
    decreases Size(e), 2
  {
    var k := c.known[e.cond];
    assert Eval(vm.host, env, e.cond, cfg.world) == (cfg.world, Prim(k));
    ExprCorrect(c, s, if Truthful(k) then e.thenExpr else e.elseExpr, target, temp, vm, env, cfg);
  }

  lemma IfElseAndOrCode(c: Context, s: Builder, e: Expr, and: bool, target: nat, temp: bool, t: Builder)
    requires e.IfElse? && e.cond !in c.known && IfElseCode(c, s, e, target, temp) == Ok(t)
    requires IsAndOr(c, e, and) && (and ==> !IsAndOr(c, e, false))
    ensures IfElseAndOr(c, s, and, LocalReg(c, e.cond).value, if and then e.thenExpr else e.elseExpr, target) == Ok(t)
  {
  }

  lemma IfElseJumpsCode(c: Context, s: Builder, e: Expr, target: nat, temp: bool, t: Builder)
    returns (s1: Builder, elseJump: Labels, s2: Builder, s4: Builder, s5: Builder)
    requires e.IfElse? && e.cond !in c.known && IfElseCode(c, s, e, target, temp) == Ok(t)
    requires !IsAndOr(c, e, false) && !IsAndOr(c, e, true)
    ensures CondCode(c, s, e.cond, None, false) == Ok((s1, elseJump)) && ExprCode(c, s1, e.thenExpr, target, temp) == Ok(s2)
    ensures ExprCode(c, EmitAD(s2, JUMP, 0, 0), e.elseExpr, target, temp) == Ok(s4)
    ensures PatchJumps(s4, elseJump, |s2.insns| + 1) == Ok(s5) && PatchJump(s5, |s2.insns|, |s4.insns|) == Ok(t)
  {
    var first := CondCode(c, s, e.cond, None, false).value;
    s1, elseJump := first.0, first.1;
    s2 := ExprCode(c, s1, e.thenExpr, target, temp).value;
    s4 := ExprCode(c, EmitAD(s2, JUMP, 0, 0), e.elseExpr, target, temp).value;
    s5 := PatchJumps(s4, elseJump, |s2.insns| + 1).value;
  }

  lemma {:induction false} IfElseCorrect(c: Context, s: Builder, e: Expr, target: nat, temp: bool, t: Builder, vm: Vm, env: Env, cfg: Config)
    requires e.IfElse? && IfElseCode(c, s, e, target, temp) == Ok(t)
    requires Placed(vm, s, t) && Ready(c, env, s, cfg, t.stackSize) && Sound(c, vm.host, env, e)
    requires target < s.regTop && (temp ==> Free(c, target))
    ensures Computes(vm, cfg, |t.insns|, target, s.regTop, Eval(vm.host, env, e, cfg.world))
    decreases Size(e), 3
  {
    if e.cond in c.known {
      IfElseKnownCorrect(c, s, e, target, temp, vm, env, cfg);
    } else if IsAndOr(c, e, false) {
      IfElseAndOrCode(c, s, e, false, target, temp, t);
      IfElseAndOrCorrect(c, s, e, false, target, t, vm, env, cfg);
    } else if IsAndOr(c, e, true) {
      IfElseAndOrCode(c, s, e, true, target, temp, t);
      IfElseAndOrCorrect(c, s, e, true, target, t, vm, env, cfg);
    } else {
      var s1, elseJump, s2, s4, s5 := IfElseJumpsCode(c, s, e, target, temp, t);
      IfElseJumpsCorrect(c, s, e, target, temp, s1, elseJump, s2, s4, s5, t, vm, env, cfg);
    }
  }

  // ----- concatenation -----

  lemma {:induction false} ConcatSound(c: Context, h: Host, env: Env, e: Expr)
    requires e.Binary? && e.bop.Concat? && Sound(c, h, env, e)
    ensures forall x <- ConcatOperands(e) :: Sound(c, h, env, x)
  {
    if e.right.Binary? && e.right.bop.Concat? {
      ConcatSound(c, h, env, e.right);
    }
  }

  /** Unrolling does not change what a concatenation means. */
  lemma {:induction false} ConcatMeaning(h: Host, env: Env, e: Expr, w: World)
    requires e.Binary? && e.bop.Concat?
    ensures
      var (w1, vs) := EvalList(h, env, ConcatOperands(e), w);
      vs != [] && Eval(h, env, e, w) == ConcatFold(h, vs, w1)
  {
    var es := ConcatOperands(e);
    var w1 := Eval(h, env, e.left, w).0;
    if e.right.Binary? && e.right.bop.Concat? {
      ConcatMeaning(h, env, e.right, w1);
      assert es[1..] == ConcatOperands(e.right);
    } else {
      assert es[1..] == [e.right] && es[1..][1..] == [];
      var (w2, b) := Eval(h, env, e.right, w1);
      assert EvalList(h, env, [e.right], w1) == (w2, [b]) by {
        assert EvalList(h, env, [], w2) == (w2, []);
        assert [b] + [] == [b];
      }
    }
    var (wn, vs) := EvalList(h, env, es, w);
    assert vs[1..] == EvalList(h, env, es[1..], w1).1;
  }

  /** The run to `stop` leaves the results in consecutive registers from `base` on. */
  ghost predicate Fills(vm: Vm, cfg: Config, stop: nat, base: nat, result: (World, seq<Value>)) {
    match Run(vm, cfg, stop)
    case None => false
    case Some(out) =>
      && out.pc == stop && out.world == result.0 && SameBelow(cfg.regs, out.regs, base)
      && base + |result.1| <= |out.regs| && out.regs[base..base + |result.1|] == result.1
  }

  lemma FillsCons(vm: Vm, cfg: Config, mid: nat, stop: nat, base: nat, top: nat, v: Value, w: World, rest: (World, seq<Value>))
    requires mid <= stop && base < top && Computes(vm, cfg, mid, base, top, (w, v))
    requires Fills(vm, Run(vm, cfg, mid).value, stop, base + 1, rest)
    ensures Fills(vm, cfg, stop, base, (rest.0, [v] + rest.1))
  {
    RunThen(vm, cfg, mid, stop);
    var out := Run(vm, cfg, stop).value;
    var n := |rest.1|;
    assert out.regs[base..base + 1 + n] == [out.regs[base]] + out.regs[base + 1..base + 1 + n];
  }

  lemma ListUnfold(c: Context, s: Builder, es: seq<Expr>, base: nat, t: Builder) returns (s1: Builder)
    requires es != [] && ListCode(c, s, es, base) == Ok(t)
    ensures ExprCode(c, s, es[0], base, true) == Ok(s1) && ListCode(c, s1, es[1..], base + 1) == Ok(t)
    ensures Grows(s, s1) && Grows(s1, t) && s1.regTop == s.regTop
  {
    s1 := ExprCode(c, s, es[0], base, true).value;
  }

  /** A value above all locals leaves them in place. */
  lemma ReadyAbove(c: Context, env: Env, s: Builder, s1: Builder, vm: Vm, cfg: Config, base: nat, frame: nat, result: (World, Value))
    requires Ready(c, env, s, cfg, frame) && s1.regTop == s.regTop && s.stackSize <= s1.stackSize <= frame
    requires base < s.regTop && forall l <- c.locals :: c.locals[l] < base
    requires Computes(vm, cfg, |s1.insns|, base, s.regTop, result)
    ensures Ready(c, env, s1, Run(vm, cfg, |s1.insns|).value, frame)
  {
  }

  /** A list ends up in consecutive registers. */
  lemma {:induction false} ListCorrect(c: Context, s: Builder, es: seq<Expr>, base: nat, t: Builder, vm: Vm, env: Env, cfg: Config)
    requires ListCode(c, s, es, base) == Ok(t) && Placed(vm, s, t) && Ready(c, env, s, cfg, t.stackSize)
    requires forall x <- es :: Sound(c, vm.host, env, x)
    requires base + |es| <= s.regTop && forall l <- c.locals :: c.locals[l] < base
    ensures Fills(vm, cfg, |t.insns|, base, EvalList(vm.host, env, es, cfg.world))
    decreases ListSize(es), 5, |es|
  {
    if es != [] {
      var s1 := ListUnfold(c, s, es, base, t);
      PlacedPrefix(vm, s, s1, t);
      ExprCorrect(c, s, es[0], base, true, vm, env, cfg);
      var mid := Run(vm, cfg, |s1.insns|).value;
      var (w, v) := Eval(vm.host, env, es[0], cfg.world);
      ReadyAbove(c, env, s, s1, vm, cfg, base, t.stackSize, (w, v));
      ListCorrect(c, s1, es[1..], base + 1, t, vm, env, mid);
      FillsCons(vm, cfg, |s1.insns|, |t.insns|, base, s.regTop, v, w, EvalList(vm.host, env, es[1..], w));
    }
  }

  lemma ConcatFinish(vm: Vm, cfg: Config, n: nat, target: nat, base: nat, result: (World, seq<Value>))
    requires result.1 != [] && Fills(vm, cfg, n, base, result) && target < base
    requires n < |vm.code| && vm.code[n] == ABC(CONCAT, target, base, base + |result.1| - 1)
    ensures Computes(vm, cfg, n + 1, target, base, ConcatFold(vm.host, result.1, result.0))
  {
    Finish(vm, cfg, n, n + 1, target, base, ConcatFold(vm.host, result.1, result.0));
  }

  lemma {:induction false} ConcatCorrect(c: Context, s: Builder, e: Expr, target: nat, temp: bool, t: Builder, vm: Vm, env: Env, cfg: Config)
    requires e.Binary? && e.bop.Concat? && e !in c.known
    requires ExprCode(c, s, e, target, temp) == Ok(t) && Placed(vm, s, t) && Ready(c, env, s, cfg, t.stackSize)
    requires Sound(c, vm.host, env, e) && target < s.regTop
    ensures Computes(vm, cfg, |t.insns|, target, s.regTop, Eval(vm.host, env, e, cfg.world))
    decreases Size(e), 3
  {
    var args := ConcatOperands(e);
    var s1 := AllocReg(s, |args|).value;
    ConcatOperandsSize(e);
    ConcatRuns(c, s, e, args, s1, ListCode(c, s1, args, s.regTop).value, target, t, vm, env, cfg);
  }

  lemma {:induction false} ConcatRuns(c: Context, s: Builder, e: Expr, args: seq<Expr>, s1: Builder, s2: Builder, target: nat, t: Builder,
                                      vm: Vm, env: Env, cfg: Config)
    requires e.Binary? && e.bop.Concat? && args == ConcatOperands(e) && ListSize(args) < Size(e)
    requires AllocReg(s, |args|) == Ok(s1) && ListCode(c, s1, args, s.regTop) == Ok(s2)
    requires Grows(s2, t) && t.insns == s2.insns + [ABC(CONCAT, target, s.regTop, s.regTop + |args| - 1)]
    requires Placed(vm, s, t) && Ready(c, env, s, cfg, t.stackSize) && Sound(c, vm.host, env, e) && target < s.regTop
    ensures Computes(vm, cfg, |t.insns|, target, s.regTop, Eval(vm.host, env, e, cfg.world))
    decreases Size(e), 2
  {
    PlacedPrefix(vm, s1, s2, t);
    ConcatSound(c, vm.host, env, e);
    ListCorrect(c, s1, args, s.regTop, s2, vm, env, cfg);
    assert vm.code[|s2.insns|] == t.insns[|s2.insns|];
    ConcatMeaning(vm.host, env, e, cfg.world);
    ConcatFinish(vm, cfg, |s2.insns|, target, s.regTop, EvalList(vm.host, env, args, cfg.world));
  }
}
