/** The code generator: an object whose methods append to the instruction stream, patch it in place
    and move the top of the register frame. */
module Compiler {
  import opened Sequences
  import opened Results
  import opened LuaSource
  import opened RegisterVm
  import opened EmitSpec
  import EmitLimits
  import opened AssignSpec
  import AssignLimits

  lemma WithinTail(labels: Labels, i: nat, n: nat)
    requires i <= |labels| && Within(labels, 0, n)
    ensures Within(labels[i..], 0, n)
  {
    forall l <- labels[i..] ensures l in labels {
    }
  }

  /** The rest of a list, behind what is already there. */
  ghost function Prepend<T>(xs: seq<T>, r: Outcome<(Builder, seq<T>)>): Outcome<(Builder, seq<T>)> {
    match r
    case Ok(t) => Ok((t.0, xs + t.1))
    case Err(e) => Err(e)
  }

  lemma PrependNil<T>(r: Outcome<(Builder, seq<T>)>)
    ensures Prepend([], r) == r
  {
    if r.Ok? {
      assert [] + r.value.1 == r.value.1;
    }
  }

  lemma PrependEnd<T>(xs: seq<T>, s: Builder)
    ensures Prepend(xs, Ok((s, []))) == Ok((s, xs))
  {
    assert xs + [] == xs;
  }

  lemma PrependMore<T>(xs: seq<T>, x: T, r: Outcome<(Builder, seq<T>)>)
    ensures Prepend(xs, Prepend([x], r)) == Prepend(xs + [x], r)
  {
    if r.Ok? {
      assert xs + ([x] + r.value.1) == xs + [x] + r.value.1;
    }
  }

  class Compiler {
    const context: Context

    var insns: seq<Insn>
    var constants: seq<Const>
    var regTop: FrameSize
    var stackSize: FrameSize

    ghost function State(): Builder
      reads this
    {
      Builder(insns, constants, regTop, stackSize)
    }

    /** The outcome of a method, and the state after it, are those of its specification. */
    ghost predicate Meets(spec: Outcome<Builder>, r: Outcome<()>)
      reads this
    {
      match spec
      case Ok(t) => r.Ok? && State() == t
      case Err(e) => r == Err(e)
    }

    ghost predicate MeetsWith<T>(spec: Outcome<(Builder, T)>, r: Outcome<T>)
      reads this
    {
      match spec
      case Ok(t) => r == Ok(t.1) && State() == t.0
      case Err(e) => r == Err(e)
    }

    constructor (context: Context)
      ensures this.context == context && State() == Builder([], [], 0, 0)
    {
      this.context := context;
      insns, constants, regTop, stackSize := [], [], 0, 0;
    }

    // ----- instructions, constants, registers -----

    method EmitABC(op: Opcode, a: nat, b: nat, c: nat)
      modifies this`insns
      ensures State() == EmitSpec.EmitABC(old(State()), op, a, b, c)
    {
      insns := insns + [ABC(op, a, b, c)];
    }

    method EmitAD(op: Opcode, a: nat, d: int)
      modifies this`insns
      ensures State() == EmitSpec.EmitAD(old(State()), op, a, d)
    {
      insns := insns + [AD(op, a, d)];
    }

    method EmitAux(word: nat, flip: bool)
      modifies this`insns
      ensures State() == EmitSpec.EmitAux(old(State()), word, flip)
    {
      insns := insns + [Aux(word, flip)];
    }

    method EmitLoadK(target: nat, id: nat)
      modifies this`insns
      ensures State() == EmitSpec.EmitLoadK(old(State()), target, id)
    {
      if id < 32768 {
        EmitAD(LOADK, target, id);
      } else {
        EmitAD(LOADKX, target, 0);
        EmitAux(id, false);
      }
    }

    method AllocReg(count: nat) returns (r: Outcome<nat>)
      modifies this`regTop, this`stackSize
      ensures match EmitSpec.AllocReg(old(State()), count)
        case Ok(t) => r == Ok(old(regTop)) && State() == t
        case Err(e) => r == Err(e)
    {
      var top := regTop;
      if top + count > MAX_REGISTERS {
        return Err(OutOfRegisters);
      }
      regTop := regTop + count;
      stackSize := if stackSize > regTop then stackSize else regTop;
      return Ok(top);
    }

    method AddConstant(c: Const) returns (r: Outcome<nat>)
      modifies this`constants
      ensures MeetsWith(EmitSpec.AddConstant(old(State()), c), r)
    {
      var cached := Find(constants, c);
      if cached.Some? {
        return Ok(cached.value);
      }
      var id := |constants|;
      if id >= MAX_CONSTANTS {
        return Err(ConstantLimit);
      }
      constants := constants + [c];
      return Ok(id);
    }

    method PatchJump(site: nat, target: nat) returns (r: Outcome<()>)
      requires site < |insns|
      modifies this`insns
      ensures Meets(EmitSpec.PatchJump(old(State()), site, target), r)
    {
      var offset := target - site - 1;
      if offset <= 0 - MAX_JUMP_DISTANCE || offset >= MAX_JUMP_DISTANCE {
        return Err(JumpDistance);
      }
      insns := insns[site := Retarget(insns[site], offset)];
      return Ok(());
    }

    method PatchJumps(labels: Labels, target: nat) returns (r: Outcome<()>)
      requires Within(labels, 0, |insns|)
      modifies this`insns
      ensures Meets(EmitSpec.PatchJumps(old(State()), labels, target), r)
    {
      ghost var whole := EmitSpec.PatchJumps(State(), labels, target);
      for i := 0 to |labels|
        invariant |insns| == |old(insns)| && Within(labels[i..], 0, |insns|)
        invariant EmitSpec.PatchJumps(State(), labels[i..], target) == whole
      {
        assert labels[i..][0] == labels[i] && labels[i..][1..] == labels[i + 1..];
        assert labels[i] in labels && forall l <- labels[i + 1..] :: l in labels;
        var _ :- PatchJump(labels[i], target);
        WithinTail(labels, i + 1, |insns|);
      }
      return Ok(());
    }

    // ----- expressions -----

    method ConstantNumber(e: Expr) returns (r: Outcome<Option<nat>>)
      modifies this`constants
      ensures MeetsWith(EmitSpec.ConstantNumber(context, old(State()), e), r)
    {
      if e in context.known && context.known[e].CNumber? {
        var id :- AddConstant(context.known[e]);
        return Ok(Some(id));
      }
      return Ok(None);
    }

    method ConstantIndex(e: Expr) returns (r: Outcome<Option<nat>>)
      modifies this`constants
      ensures MeetsWith(EmitSpec.ConstantIndex(context, old(State()), e), r)
    {
      if e in context.known {
        var id :- AddConstant(context.known[e]);
        return Ok(Some(id));
      }
      return Ok(None);
    }

    method CompileExprConstant(k: Const, target: nat) returns (r: Outcome<()>)
      modifies this
      ensures Meets(ConstantExpr(old(State()), k, target), r)
    {
      match k {
      case CNil => EmitABC(LOADNIL, target, 0, 0);
      case CBool(b) => EmitABC(LOADB, target, if b then 1 else 0, 0);
      case CNumber(n) =>
        if n.Integral? && -32768 <= n.value <= 32767 {
          EmitAD(LOADN, target, n.value);
        } else {
          var id :- AddConstant(k);
          EmitLoadK(target, id);
        }
      case _ =>
        var id :- AddConstant(k);
        EmitLoadK(target, id);
      }
      return Ok(());
    }

    method CompileLiteral(k: Const, target: nat) returns (r: Outcome<()>)
      modifies this
      ensures Meets(LiteralExpr(old(State()), k, target), r)
    {
      match k {
      case CNil => EmitABC(LOADNIL, target, 0, 0);
      case CBool(b) => EmitABC(LOADB, target, if b then 1 else 0, 0);
      case _ =>
        var id :- AddConstant(k);
        EmitLoadK(target, id);
      }
      return Ok(());
    }

    method CompileExpr(e: Expr, target: nat, temp: bool) returns (r: Outcome<()>)
      modifies this
      ensures Meets(ExprCode(context, old(State()), e, target, temp), r)
      ensures EmitLimits.Enough(context, old(State()), e, EmitLimits.ExprRegs(e, temp)) ==> r.Ok?
      decreases Size(e), 4
    {
      if EmitLimits.Enough(context, State(), e, EmitLimits.ExprRegs(e, temp)) {
        EmitLimits.ExprCompiles(context, State(), e, target, temp);
      }
      if e in context.known {
        r := CompileExprConstant(context.known[e], target);
        return;
      }
      match e
      case Group(x) =>
        r := CompileExpr(x, target, temp);
      case Literal(k) =>
        r := CompileLiteral(k, target);
      case Local(l) =>
        if l !in context.locals {
          return Err(UnresolvedLocal);
        }
        if !context.optimize || target != context.locals[l] {
          EmitABC(MOVE, target, context.locals[l], 0);
        }
        return Ok(());
      case Upvalue(u) =>
        EmitABC(GETUPVAL, target, u, 0);
        return Ok(());
      case Global(n) =>
        var id :- AddConstant(CString(n));
        EmitABC(GETGLOBAL, target, 0, 0);
        EmitAux(id, false);
        return Ok(());
      case Unary(op, x) =>
        var oldTop := regTop;
        var re :- CompileExprAuto(x);
        EmitABC(UnaryOpcode(op), target, re, 0);
        regTop := oldTop;
        return Ok(());
      case Binary(_, _, _) =>
        r := CompileExprBinary(e, target, temp);
      case IfElse(_, _, _) =>
        r := CompileExprIfElse(e, target, temp);
      case IndexName(x, k) =>
        var oldTop := regTop;
        var reg :- CompileExprAuto(x);
        var id :- AddConstant(CString(k));
        EmitABC(GETTABLEKS, target, reg, 0);
        EmitAux(id, false);
        regTop := oldTop;
        return Ok(());
      case IndexExpr(_, _) =>
        r := CompileExprIndexExpr(e, target);
    }

    method CompileExprAuto(e: Expr) returns (r: Outcome<nat>)
      modifies this
      ensures MeetsWith(AutoCode(context, old(State()), e), r)
      decreases Size(e), 5
    {
      var local := LocalReg(context, e);
      if local.Some? {
        return Ok(local.value);
      }
      var reg :- AllocReg(1);
      var _ :- CompileExpr(e, reg, true);
      return Ok(reg);
    }

    method CompileExprBinary(e: Expr, target: nat, temp: bool) returns (r: Outcome<()>)
      requires e.Binary? && e !in context.known
      modifies this
      ensures Meets(ExprCode(context, old(State()), e, target, temp), r)
      decreases Size(e), 3, 1
    {
      match e.bop
      case Arith(_) =>
        r := CompileExprArith(e, target);
      case Concat =>
        r := CompileExprConcat(e, target, temp);
      case Compare(_) =>
        var jump :- CompileCompareJump(e, false);
        EmitABC(LOADB, target, 0, 1);
        var thenLabel := |insns|;
        EmitABC(LOADB, target, 1, 0);
        r := PatchJump(jump, thenLabel);
      case And =>
        r := CompileExprAndOr(e, target, temp);
      case Or =>
        r := CompileExprAndOr(e, target, temp);
    }

    method CompileExprArith(e: Expr, target: nat) returns (r: Outcome<()>)
      requires e.Binary? && e.bop.Arith?
      modifies this
      ensures Meets(ArithCode(context, old(State()), e, target), r)
      decreases Size(e), 2
    {
      var oldTop := regTop;
      var op := e.bop.arith;
      var rc :- ConstantNumber(e.right);
      if rc.Some? && rc.value <= 255 {
        var rl :- CompileExprAuto(e.left);
        EmitABC(ARITHK(op), target, rl, rc.value);
      } else {
        if op == Sub || op == Div {
          var lc :- ConstantNumber(e.left);
          if lc.Some? && lc.value <= 255 {
            var rr :- CompileExprAuto(e.right);
            EmitABC(ARITHRK(op), target, lc.value, rr);
            regTop := oldTop;
            return Ok(());
          }
        }
        r := CompileArithRegs(e, target, oldTop);
        return;
      }
      regTop := oldTop;
      return Ok(());
    }

    method CompileArithRegs(e: Expr, target: nat, oldTop: FrameSize) returns (r: Outcome<()>)
      requires e.Binary? && e.bop.Arith?
      modifies this
      ensures Meets(ArithRegs(context, old(State()), e, target, oldTop), r)
      decreases Size(e), 1
    {
      var rl :- CompileExprAuto(e.left);
      var rr :- CompileExprAuto(e.right);
      EmitABC(ARITH(e.bop.arith), target, rl, rr);
      regTop := oldTop;
      return Ok(());
    }

    static ghost function LastOperands(e: Expr): seq<Expr> {
      if e.Binary? && e.bop.Concat? then ConcatOperands(e) else [e]
    }

    /** Unrolls the tree of concatenations down the right hand side. */
    method UnrollConcats(e: Expr) returns (args: seq<Expr>)
      requires e.Binary? && e.bop.Concat?
      ensures args == ConcatOperands(e)
    {
      args := [e.left, e.right];
      while args[|args| - 1].Binary? && args[|args| - 1].bop.Concat?
        invariant |args| >= 2
        invariant ConcatOperands(e) == args[..|args| - 1] + LastOperands(args[|args| - 1])
        decreases args[|args| - 1]
      {
        var last := args[|args| - 1];
        ghost var before := args[..|args| - 1];
        args := args[..|args| - 1] + [last.left, last.right];
        assert args[|args| - 1] == last.right && args[..|args| - 1] == before + [last.left];
        Assoc(before, [last.left], LastOperands(last.right));
      }
    }

    /** Operands into consecutive registers, one after the other. */
    method CompileOperands(args: seq<Expr>, regs: nat) returns (r: Outcome<()>)
      modifies this
      ensures Meets(ListCode(context, old(State()), args, regs), r)
      decreases ListSize(args), 7, 0
    {
      ghost var whole := ListCode(context, State(), args, regs);
      for i := 0 to |args|
        invariant ListCode(context, State(), args[i..], regs + i) == whole
        invariant ListSize(args[i..]) <= ListSize(args)
      {
        assert args[i..][0] == args[i] && args[i..][1..] == args[i + 1..];
        var _ :- CompileExpr(args[i], regs + i, true);
      }
      return Ok(());
    }

    method CompileExprConcat(e: Expr, target: nat, temp: bool) returns (r: Outcome<()>)
      requires e.Binary? && e.bop.Concat? && e !in context.known
      modifies this
      ensures Meets(ExprCode(context, old(State()), e, target, temp), r)
      decreases Size(e), 3, 0
    {
      var oldTop := regTop;
      var args := UnrollConcats(e);
      ConcatOperandsSize(e);
      var regs :- AllocReg(|args|);
      var _ :- CompileOperands(args, regs);
      EmitABC(CONCAT, target, regs, regs + |args| - 1);
      regTop := oldTop;
      return Ok(());
    }

    method CompileExprIndexExpr(e: Expr, target: nat) returns (r: Outcome<()>)
      requires e.IndexExpr?
      modifies this
      ensures Meets(IndexCode(context, old(State()), e, target), r)
      decreases Size(e), 2
    {
      var oldTop := regTop;
      var small := SmallIndex(context, e.index);
      if small.Some? {
        var rt :- CompileExprAuto(e.table);
        EmitABC(GETTABLEN, target, rt, small.value);
      } else if e.index in context.known && context.known[e.index].CString? {
        var id :- AddConstant(context.known[e.index]);
        var rt :- CompileExprAuto(e.table);
        EmitABC(GETTABLEKS, target, rt, 0);
        EmitAux(id, false);
      } else {
        var rt :- CompileExprAuto(e.table);
        var ri :- CompileExprAuto(e.index);
        EmitABC(GETTABLE, target, rt, ri);
      }
      regTop := oldTop;
      return Ok(());
    }

    method CompileCompareJump(e: Expr, negate: bool) returns (r: Outcome<nat>)
      requires e.Binary? && e.bop.Compare?
      modifies this
      ensures MeetsWith(CompareJump(context, old(State()), e, negate), r)
      decreases Size(e), 2
    {
      var oldTop := regTop;
      var op := e.bop.compare;
      var isEq := op == Eq || op == Ne;
      var left, right := e.left, e.right;
      var operandIsConstant := right in context.known;
      if isEq && !operandIsConstant {
        operandIsConstant := left in context.known;
        if operandIsConstant {
          left, right := right, left;
        }
      }
      if operandIsConstant && context.known[right].CVector? {
        operandIsConstant := false;
      }
      var rl :- CompileExprAuto(left);
      var jump;
      if isEq && operandIsConstant {
        jump := |insns|;
        var _ :- CompileCompareConstant(rl, context.known[right], (op == Eq) == negate);
      } else {
        var rr :- CompileExprAuto(right);
        jump := |insns|;
        if op == Gt || op == Ge {
          EmitAD(CompareOpcode(op, negate), rr, 0);
          EmitAux(rl, false);
        } else {
          EmitAD(CompareOpcode(op, negate), rl, 0);
          EmitAux(rr, false);
        }
      }
      regTop := oldTop;
      return Ok(jump);
    }

    method CompileCompareConstant(reg: nat, k: Const, flip: bool) returns (r: Outcome<()>)
      requires !k.CVector?
      modifies this
      ensures Meets(CompareConstant(old(State()), reg, k, flip), r)
    {
      if k.CNil? {
        EmitAD(JUMPXEQKNIL, reg, 0);
        EmitAux(0, flip);
      } else if k.CBool? {
        EmitAD(JUMPXEQKB, reg, 0);
        EmitAux(if k.b then 1 else 0, flip);
      } else {
        var id :- AddConstant(k);
        EmitAD(if k.CNumber? then JUMPXEQKN else JUMPXEQKS, reg, 0);
        EmitAux(id, flip);
      }
      return Ok(());
    }

    method CompileConditionValue(e: Expr, target: Option<nat>, onlyTruth: bool) returns (r: Outcome<Labels>)
      modifies this
      ensures MeetsWith(CondCode(context, old(State()), e, target, onlyTruth), r)
      decreases Size(e), 6
    {
      if e in context.known {
        if Truthful(context.known[e]) == onlyTruth {
          if target.Some? {
            var _ :- CompileExpr(e, target.value, true);
          }
          var skip := |insns|;
          EmitAD(JUMP, 0, 0);
          return Ok([skip]);
        }
        return Ok([]);
      }
      if e.Binary? && (e.bop.And? || e.bop.Or?) {
        if onlyTruth == e.bop.And? {
          var elseJump :- CompileConditionValue(e.left, None, !onlyTruth);
          var skip :- CompileConditionValue(e.right, target, onlyTruth);
          var elseLabel := |insns|;
          var _ :- PatchJumps(elseJump, elseLabel);
          return Ok(skip);
        } else {
          var skip :- CompileConditionValue(e.left, target, onlyTruth);
          var more :- CompileConditionValue(e.right, target, onlyTruth);
          return Ok(skip + more);
        }
      }
      if e.Binary? && e.bop.Compare? {
        if target.Some? {
          EmitABC(LOADB, target.value, if onlyTruth then 1 else 0, 0);
        }
        var jump :- CompileCompareJump(e, !onlyTruth);
        return Ok([jump]);
      }
      if target.None? && e.Unary? && e.uop.Not? {
        r := CompileConditionValue(e.operand, target, !onlyTruth);
        return;
      }
      if e.Group? {
        r := CompileConditionValue(e.inner, target, onlyTruth);
        return;
      }
      var oldTop := regTop;
      var reg;
      if target.Some? {
        reg := target.value;
        var _ :- CompileExpr(e, reg, true);
      } else {
        reg :- CompileExprAuto(e);
      }
      var skip := |insns|;
      EmitAD(if onlyTruth then JUMPIF else JUMPIFNOT, reg, 0);
      regTop := oldTop;
      return Ok([skip]);
    }

    method CompileExprAndOr(e: Expr, target: nat, temp: bool) returns (r: Outcome<()>)
      requires e.Binary? && (e.bop.And? || e.bop.Or?)
      modifies this
      ensures Meets(AndOrCode(context, old(State()), e, target, temp), r)
      decreases Size(e), 3, 0
    {
      var oldTop := regTop;
      var and := e.bop.And?;
      if e.left in context.known {
        r := CompileExpr(if and == Truthful(context.known[e.left]) then e.right else e.left, target, temp);
        return;
      }
      if !IsConditionFast(context, e.left) {
        var local := LocalReg(context, e.right);
        if local.Some? {
          var lr :- CompileExprAuto(e.left);
          EmitABC(if and then ANDR else ORR, target, lr, local.value);
          regTop := oldTop;
          return Ok(());
        }
        var id :- ConstantIndex(e.right);
        if id.Some? && id.value <= 255 {
          var lr :- CompileExprAuto(e.left);
          EmitABC(if and then ANDK else ORK, target, lr, id.value);
          regTop := oldTop;
          return Ok(());
        }
      }
      var reg := target;
      if !temp {
        reg :- AllocReg(1);
      }
      var _ :- CompileAndOrJumps(e, reg);
      if target != reg {
        EmitABC(MOVE, target, reg, 0);
      }
      regTop := oldTop;
      return Ok(());
    }

    method CompileAndOrJumps(e: Expr, reg: nat) returns (r: Outcome<()>)
      requires e.Binary? && (e.bop.And? || e.bop.Or?)
      modifies this
      ensures Meets(AndOrJumps(context, old(State()), e, reg), r)
      decreases Size(e), 2
    {
      var skipJump :- CompileConditionValue(e.left, Some(reg), e.bop.Or?);
      var _ :- CompileExpr(e.right, reg, true);
      var moveLabel := |insns|;
      r := PatchJumps(skipJump, moveLabel);
    }

    method CompileExprIfElseAndOr(and: bool, creg: nat, other: Expr, target: nat) returns (r: Outcome<()>)
      modifies this
      ensures Meets(IfElseAndOr(context, old(State()), and, creg, other, target), r)
      decreases Size(other), 6
    {
      var id :- ConstantIndex(other);
      if id.Some? && id.value <= 255 {
        EmitABC(if and then ANDK else ORK, target, creg, id.value);
      } else {
        var oldTop := regTop;
        var oreg :- CompileExprAuto(other);
        EmitABC(if and then ANDR else ORR, target, creg, oreg);
        regTop := oldTop;
      }
      return Ok(());
    }

    method CompileExprIfElse(e: Expr, target: nat, temp: bool) returns (r: Outcome<()>)
      requires e.IfElse?
      modifies this
      ensures Meets(IfElseCode(context, old(State()), e, target, temp), r)
      decreases Size(e), 3
    {
      if e.cond in context.known {
        if Truthful(context.known[e.cond]) {
          r := CompileExpr(e.thenExpr, target, temp);
        } else {
          r := CompileExpr(e.elseExpr, target, temp);
        }
        return;
      }
      var creg := LocalReg(context, e.cond);
      if creg.Some? {
        if creg == LocalReg(context, e.thenExpr) && (LocalReg(context, e.elseExpr).Some? || e.elseExpr in context.known) {
          r := CompileExprIfElseAndOr(false, creg.value, e.elseExpr, target);
          return;
        } else if creg == LocalReg(context, e.elseExpr) && (LocalReg(context, e.thenExpr).Some? || e.thenExpr in context.known) {
          r := CompileExprIfElseAndOr(true, creg.value, e.thenExpr, target);
          return;
        }
      }
      var elseJump :- CompileConditionValue(e.cond, None, false);
      var _ :- CompileExpr(e.thenExpr, target, temp);
      var thenLabel := |insns|;
      EmitAD(JUMP, 0, 0);
      var elseLabel := |insns|;
      var _ :- CompileExpr(e.elseExpr, target, temp);
      var endLabel := |insns|;
      var _ :- PatchJumps(elseJump, elseLabel);
      r := PatchJump(thenLabel, endLabel);
    }

    // ----- assignment -----

    method CompileLValueIndex(reg: nat, index: Expr) returns (r: Outcome<LValue>)
      modifies this
      ensures MeetsWith(LValueIndex(context, old(State()), reg, index), r)
    {
      var small := SmallIndex(context, index);
      if small.Some? {
        return Ok(LvIndexNumber(reg, small.value));
      } else if index in context.known && context.known[index].CString? {
        return Ok(LvIndexName(reg, context.known[index].s));
      } else {
        var ri :- CompileExprAuto(index);
        return Ok(LvIndexExpr(reg, ri));
      }
    }

    method CompileLValue(e: Expr) returns (r: Outcome<LValue>)
      requires IsTarget(e)
      modifies this
      ensures MeetsWith(LValueCode(context, old(State()), e), r)
    {
      match e
      case Local(l) =>
        if l !in context.locals {
          return Err(UnresolvedLocal);
        }
        return Ok(LvLocal(context.locals[l]));
      case Upvalue(u) => return Ok(LvUpvalue(u));
      case Global(n) => return Ok(LvGlobal(n));
      case IndexName(x, k) =>
        var reg :- CompileExprAuto(x);
        return Ok(LvIndexName(reg, k));
      case IndexExpr(x, i) =>
        var reg :- CompileExprAuto(x);
        r := CompileLValueIndex(reg, i);
    }

    method CompileAssign(lv: LValue, source: nat) returns (r: Outcome<()>)
      modifies this
      ensures Meets(StoreCode(old(State()), lv, source), r)
    {
      match lv {
        case LvLocal(reg) => EmitABC(MOVE, reg, source, 0);
        case LvUpvalue(u) => EmitABC(SETUPVAL, source, u, 0);
        case LvGlobal(n) =>
          var id :- AddConstant(CString(n));
          EmitABC(SETGLOBAL, source, 0, 0);
          EmitAux(id, false);
        case LvIndexName(reg, n) =>
          var id :- AddConstant(CString(n));
          EmitABC(SETTABLEKS, source, reg, 0);
          EmitAux(id, false);
        case LvIndexNumber(reg, k) => EmitABC(SETTABLEN, source, reg, k);
        case LvIndexExpr(reg, index) => EmitABC(SETTABLE, source, reg, index);
      }
      return Ok(());
    }

    /** The assigned registers that an expression reads. */
    method VisitLocals(e: Expr, written: set<nat>) returns (conflict: set<nat>)
      ensures forall r :: r in conflict <==> r in written && Reads(context, e, r)
      decreases Size(e)
    {
      match e
      case Local(l) =>
        if l in context.locals && context.locals[l] in written {
          return {context.locals[l]};
        }
        return {};
      case Group(x) => conflict := VisitLocals(x, written);
      case Unary(_, x) => conflict := VisitLocals(x, written);
      case Binary(_, x, y) =>
        conflict := VisitLocals(x, written);
        var more := VisitLocals(y, written);
        conflict := conflict + more;
      case IfElse(x, y, z) =>
        conflict := VisitLocals(x, written);
        var more := VisitLocals(y, written);
        var rest := VisitLocals(z, written);
        conflict := conflict + more + rest;
      case IndexName(x, _) => conflict := VisitLocals(x, written);
      case IndexExpr(x, i) =>
        conflict := VisitLocals(x, written);
        var more := VisitLocals(i, written);
        conflict := conflict + more;
      case _ => return {};
    }

    /** The registers in conflict, found in four passes over targets and values. */
    method FindConflicts(lvs: seq<LValue>, values: seq<Expr>) returns (conflict: set<nat>)
      ensures forall r :: r in conflict <==> InConflict(context, lvs, values, r)
    {
      conflict := {};
      var written: set<nat> := {};
      for i := 0 to |lvs|
        invariant forall r :: r in written <==> AssignedBefore(lvs, i, r)
        invariant forall r :: r in conflict <==> LocalConflict(context, lvs, values, i, r)
      {
        if lvs[i].LvLocal? {
          if i < |values| {
            var found := VisitLocals(values[i], written);
            conflict := conflict + found;
          }
          written := written + {lvs[i].reg};
        }
      }
      ghost var early := conflict;
      for i := 0 to |lvs|
        invariant forall r :: r in conflict <==> r in early || (r in written && OtherReads(context, lvs, values, i, r))
      {
        if !lvs[i].LvLocal? && i < |values| {
          var found := VisitLocals(values[i], written);
          conflict := conflict + found;
        }
      }
      assert |values| <= |lvs| ==> forall r :: OtherReads(context, lvs, values, |lvs|, r) == OtherReads(context, lvs, values, |values|, r);
      var k := |lvs|;
      while k < |values|
        invariant forall r :: r in conflict <==> r in early || (r in written && OtherReads(context, lvs, values, k, r))
      {
        var found := VisitLocals(values[k], written);
        conflict := conflict + found;
        k := k + 1;
      }
      assert forall r :: OtherReads(context, lvs, values, k, r) == OtherReads(context, lvs, values, |values|, r);
      ghost var read := conflict;
      for i := 0 to |lvs|
        invariant forall r :: r in conflict <==> r in read || (r in written && TargetReads(lvs, i, r))
      {
        var lv := lvs[i];
        if (lv.LvIndexName? || lv.LvIndexNumber? || lv.LvIndexExpr?) && lv.reg in written {
          conflict := conflict + {lv.reg};
        }
        if lv.LvIndexExpr? && lv.index in written {
          conflict := conflict + {lv.index};
        }
      }
    }

    method ResolveAssignConflicts(lvs: seq<LValue>, values: seq<Expr>) returns (r: Outcome<seq<Option<nat>>>)
      modifies this
      ensures MeetsWith(ConflictRegs(context, old(State()), lvs, values, 0), r)
    {
      var conflict := FindConflicts(lvs, values);
      var regs: seq<Option<nat>> := [];
      ghost var whole := ConflictRegs(context, State(), lvs, values, 0);
      PrependNil(whole);
      for i := 0 to |lvs|
        invariant |regs| == i
        invariant Prepend(regs, ConflictRegs(context, State(), lvs, values, i)) == whole
      {
        var reg: Option<nat> := None;
        if lvs[i].LvLocal? && lvs[i].reg in conflict {
          var temp :- AllocReg(1);
          reg := Some(temp);
        }
        PrependMore(regs, reg, ConflictRegs(context, State(), lvs, values, i + 1));
        regs := regs + [reg];
      }
      PrependEnd(regs, State());
      return Ok(regs);
    }

    /** The values of all targets, each in a register; locals without conflict are assigned already. */
    method CompileValues(lvs: seq<LValue>, conflict: seq<Option<nat>>, values: seq<Expr>) returns (r: Outcome<seq<nat>>)
      requires |lvs| == |conflict| && values != []
      modifies this
      ensures MeetsWith(ValuesCode(context, old(State()), lvs, conflict, values, 0), r)
    {
      var regs: seq<nat> := [];
      var i := 0;
      ghost var whole := ValuesCode(context, State(), lvs, conflict, values, 0);
      PrependNil(whole);
      while i < |lvs| && i < |values|
        invariant |regs| == i <= |lvs| && i <= |values| && (i == |values| ==> |lvs| <= |values|)
        invariant Prepend(regs, ValuesCode(context, State(), lvs, conflict, values, i)) == whole
      {
        if i + 1 == |values| && |lvs| > |values| {
          var last :- CompileLastValue(lvs, conflict, values, i);
          return Ok(regs + last);
        }
        var reg :- CompileValue(TargetReg(lvs, conflict, i), values[i]);
        PrependMore(regs, reg, ValuesCode(context, State(), lvs, conflict, values, i + 1));
        regs := regs + [reg];
        i := i + 1;
      }
      PrependEnd(regs, State());
      return Ok(regs);
    }

    method CompileValue(target: Option<nat>, e: Expr) returns (r: Outcome<nat>)
      modifies this
      ensures MeetsWith(ValueCode(context, old(State()), target, e), r)
    {
      if target.Some? {
        var _ :- CompileExpr(e, target.value, false);
        return Ok(target.value);
      }
      r := CompileExprAuto(e);
    }

    /** The last value of a list that is shorter than the targets, and nils after it. */
    method CompileLastValue(lvs: seq<LValue>, conflict: seq<Option<nat>>, values: seq<Expr>, i: nat) returns (r: Outcome<seq<nat>>)
      requires |lvs| == |conflict| && i + 1 == |values| < |lvs|
      modifies this
      ensures MeetsWith(ValuesCode(context, old(State()), lvs, conflict, values, i), r)
    {
      var count := (|lvs| - |values| + 1) % BYTE;
      var temp :- AllocReg(count);
      var _ :- CompileExpr(values[i], temp, true);
      LoadNils(temp + 1, if count == 0 then 0 else count - 1);
      return Ok(seq(|lvs| - i, (k: nat) => (temp + k) % BYTE));
    }

    method LoadNils(target: nat, count: nat)
      modifies this`insns
      ensures State() == AssignSpec.LoadNils(old(State()), target, count)
    {
      ghost var whole := AssignSpec.LoadNils(State(), target, count);
      for i := 0 to count
        invariant AssignSpec.LoadNils(State(), target + i, count - i) == whole
      {
        EmitABC(LOADNIL, target + i, 0, 0);
      }
    }

    method CompileStatAssign(vars: seq<Expr>, values: seq<Expr>) returns (r: Outcome<()>)
      requires vars != [] && values != [] && forall e <- vars :: IsTarget(e)
      modifies this
      ensures Meets(AssignCode(context, old(State()), vars, values), r)
      ensures AssignLimits.EnoughFor(context, old(State()), vars, values) ==> r.Ok?
    {
      if AssignLimits.EnoughFor(context, State(), vars, values) {
        AssignLimits.AssignCompiles(context, State(), vars, values);
      }
      var oldTop := regTop;
      if |vars| == 1 && |values| == 1 {
        var lv :- CompileLValue(vars[0]);
        if lv.LvLocal? {
          var _ :- CompileExpr(values[0], lv.reg, false);
        } else {
          var reg :- CompileExprAuto(values[0]);
          var _ :- CompileAssign(lv, reg);
        }
        regTop := oldTop;
        return Ok(());
      }
      var lvs :- CompileLValues(vars);
      var conflict :- ResolveAssignConflicts(lvs, values);
      var regs :- CompileValues(lvs, conflict, values);
      var _ :- CompileSides(values[Smaller(|vars|, |values|)..]);
      var _ :- CompileStores(lvs, regs);
      CompileMoves(lvs, regs);
      regTop := oldTop;
      return Ok(());
    }

    method CompileLValues(vars: seq<Expr>) returns (r: Outcome<seq<LValue>>)
      requires forall e <- vars :: IsTarget(e)
      modifies this
      ensures MeetsWith(LValuesCode(context, old(State()), vars), r)
    {
      var lvs: seq<LValue> := [];
      ghost var whole := LValuesCode(context, State(), vars);
      PrependNil(whole);
      assert vars[0..] == vars;
      for i := 0 to |vars|
        invariant |lvs| == i
        invariant Prepend(lvs, LValuesCode(context, State(), vars[i..])) == whole
      {
        assert vars[i..][0] == vars[i] && vars[i..][1..] == vars[i + 1..];
        var lv :- CompileLValue(vars[i]);
        PrependMore(lvs, lv, LValuesCode(context, State(), vars[i + 1..]));
        lvs := lvs + [lv];
      }
      PrependEnd(lvs, State());
      return Ok(lvs);
    }

    /** Values beyond the targets, for their effects. */
    method CompileSides(es: seq<Expr>) returns (r: Outcome<()>)
      modifies this
      ensures Meets(SidesCode(context, old(State()), es), r)
    {
      ghost var whole := SidesCode(context, State(), es);
      assert es[0..] == es;
      for i := 0 to |es|
        invariant SidesCode(context, State(), es[i..]) == whole
      {
        assert es[i..][0] == es[i] && es[i..][1..] == es[i + 1..];
        if !NoEffect(context, es[i]) {
          var oldTop := regTop;
          var _ :- CompileExprAuto(es[i]);
          regTop := oldTop;
        }
      }
      return Ok(());
    }

    method CompileStores(lvs: seq<LValue>, regs: seq<nat>) returns (r: Outcome<()>)
      requires |lvs| == |regs|
      modifies this
      ensures Meets(StoresCode(old(State()), lvs, regs), r)
    {
      ghost var whole := StoresCode(State(), lvs, regs);
      assert lvs[0..] == lvs && regs[0..] == regs;
      for i := 0 to |lvs|
        invariant StoresCode(State(), lvs[i..], regs[i..]) == whole
      {
        assert lvs[i..][0] == lvs[i] && lvs[i..][1..] == lvs[i + 1..];
        assert regs[i..][0] == regs[i] && regs[i..][1..] == regs[i + 1..];
        if !lvs[i].LvLocal? {
          var _ :- CompileAssign(lvs[i], regs[i]);
        }
      }
      return Ok(());
    }

    method CompileMoves(lvs: seq<LValue>, regs: seq<nat>)
      requires |lvs| == |regs|
      modifies this
      ensures State() == MovesCode(old(State()), lvs, regs)
    {
      ghost var whole := MovesCode(State(), lvs, regs);
      assert lvs[0..] == lvs && regs[0..] == regs;
      for i := 0 to |lvs|
        invariant MovesCode(State(), lvs[i..], regs[i..]) == whole
      {
        assert lvs[i..][0] == lvs[i] && lvs[i..][1..] == lvs[i + 1..];
        assert regs[i..][0] == regs[i] && regs[i..][1..] == regs[i + 1..];
        if lvs[i].LvLocal? && regs[i] != lvs[i].reg {
          EmitABC(MOVE, lvs[i].reg, regs[i], 0);
        }
      }
    }
  }
}
