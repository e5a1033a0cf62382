/**
 When expressions compile. How many registers an expression needs, how many constants it adds and how many words of code it
 takes are bounded by its form alone. Where these fit, and every local in it has a register, nothing is refused; and the frame
 grows by no more than is needed.
 */
module EmitLimits {
  import opened Results
  import opened LuaSource
  import opened RegisterVm
  import opened EmitSpec

  // ----- what an expression needs -----

  function Max(a: nat, b: nat): nat {
    if a > b then a else b
  }

  /** A local, in any number of parentheses, is read in place. */
  predicate IsLocal(e: Expr) {
    e.Local? || (e.Group? && IsLocal(e.inner))
  }

  predicate Decides(e: Expr) {
    (e.Group? && Decides(e.inner)) || (e.Binary? && (e.bop.And? || e.bop.Or? || e.bop.Compare?))
  }

  /** Registers beyond the target; `temp` says whether the target itself may be used on the way. */
  function ExprRegs(e: Expr, temp: bool): nat
    decreases e, 3
  {
    match e
    case Group(x) => ExprRegs(x, temp)
    case Unary(_, x) => AutoRegs(x)
    case Binary(Concat, _, _) => Operands(e) + OperandRegs(e)
    case Binary(And, l, r) => AndOrRegs(e, temp)
    case Binary(Or, l, r) => AndOrRegs(e, temp)
    case Binary(_, l, r) => Max(AutoRegs(l), Held(l) + AutoRegs(r))
    case IfElse(x, t, f) =>
      Max(Max(CondRegs(x, false), if IsLocal(x) then 1 else 0), Max(ExprRegs(t, temp), ExprRegs(f, temp)))
    case IndexName(x, _) => AutoRegs(x)
    case IndexExpr(x, i) => Max(AutoRegs(x), Held(x) + AutoRegs(i))
    case _ => 0
  }

  /** The register that an operand keeps. */
  function Held(e: Expr): nat {
    if IsLocal(e) then 0 else 1
  }

  function AutoRegs(e: Expr): nat
    decreases e, 4
  {
    if IsLocal(e) then 0 else 1 + ExprRegs(e, true)
  }

  /** Two operands, the second one computed while the first one is held. */
  function PairRegs(l: Expr, r: Expr): nat {
    Max(AutoRegs(l), Held(l) + AutoRegs(r))
  }

  /** The number of operands of a chain of concatenations. */
  function Operands(e: Expr): nat {
    if e.Binary? && e.bop.Concat? then 1 + Operands(e.right) else 1
  }

  function OperandRegs(e: Expr): nat
    requires e.Binary? && e.bop.Concat?
    decreases e, 2
  {
    Max(ExprRegs(e.left, true), if e.right.Binary? && e.right.bop.Concat? then OperandRegs(e.right) else ExprRegs(e.right, true))
  }

  function AndOrRegs(e: Expr, temp: bool): nat
    requires e.Binary? && (e.bop.And? || e.bop.Or?)
    decreases e, 2
  {
    var jumps := Max(CondRegs(e.left, true), ExprRegs(e.right, true));
    Max(Max(if temp then jumps else 1 + jumps, ExprRegs(e.right, temp)), if Decides(e.left) then 0 else AutoRegs(e.left))
  }

  /** Registers for a condition; with a target for its value, a value that is tested needs no other one. */
  function CondRegs(e: Expr, target: bool): nat
    decreases e, 6
  {
    if e.Binary? && (e.bop.And? || e.bop.Or?) then Max(Max(CondRegs(e.left, false), CondRegs(e.left, target)), CondRegs(e.right, target))
    else if e.Binary? && e.bop.Compare? then Max(AutoRegs(e.left), Held(e.left) + AutoRegs(e.right))
    else if !target && e.Unary? && e.uop.Not? then CondRegs(e.operand, false)
    else if e.Group? then CondRegs(e.inner, target)
    else if target then ExprRegs(e, true)
    else AutoRegs(e)
  }

  /** Constants that may be added: one for each leaf and name, and one more where an operand is first tried as a constant. */
  function MaxConsts(e: Expr): nat {
    match e
    case Group(x) => MaxConsts(x)
    case Unary(_, x) => MaxConsts(x)
    case Binary(Arith(_), l, r) => MaxConsts(l) + MaxConsts(r) + 2
    case Binary(And, l, r) => MaxConsts(l) + MaxConsts(r) + 1
    case Binary(Or, l, r) => MaxConsts(l) + MaxConsts(r) + 1
    case Binary(_, l, r) => MaxConsts(l) + MaxConsts(r)
    case IfElse(x, t, f) => MaxConsts(x) + MaxConsts(t) + MaxConsts(f) + 1
    case IndexName(x, _) => MaxConsts(x) + 1
    case IndexExpr(x, i) => MaxConsts(x) + MaxConsts(i)
    case _ => 1
  }

  /** Words of code: two for a leaf, and a few for every node. */
  function MaxInsns(e: Expr): (n: nat)
    ensures n >= 2
  {
    match e
    case Group(x) => MaxInsns(x)
    case Unary(_, x) => MaxInsns(x) + 1
    case Binary(Compare(_), l, r) => MaxInsns(l) + MaxInsns(r) + 4
    case Binary(And, l, r) => MaxInsns(l) + MaxInsns(r) + 2
    case Binary(Or, l, r) => MaxInsns(l) + MaxInsns(r) + 2
    case Binary(_, l, r) => MaxInsns(l) + MaxInsns(r) + 1
    case IfElse(x, t, f) => MaxInsns(x) + MaxInsns(t) + MaxInsns(f) + 2
    case IndexName(x, _) => MaxInsns(x) + 2
    case IndexExpr(x, i) => MaxInsns(x) + MaxInsns(i) + 2
    case _ => 2
  }

  // ----- what a piece of code takes -----

  /** Every local that is mentioned has a register. */
  predicate Scoped(c: Context, e: Expr) {
    match e
    case Local(l) => l in c.locals
    case Group(x) => Scoped(c, x)
    case Unary(_, x) => Scoped(c, x)
    case Binary(_, l, r) => Scoped(c, l) && Scoped(c, r)
    case IfElse(x, t, f) => Scoped(c, x) && Scoped(c, t) && Scoped(c, f)
    case IndexName(x, _) => Scoped(c, x)
    case IndexExpr(x, i) => Scoped(c, x) && Scoped(c, i)
    case _ => true
  }

  /** So many registers and constants are left. */
  predicate Room(s: Builder, regs: nat, consts: nat) {
    s.regTop + regs <= 255 && |s.constants| + consts <= 0x80_0000
  }

  /** From `s` to `t` no more was used. */
  ghost predicate Takes(s: Builder, t: Builder, regs: nat, consts: nat, insns: nat) {
    && |s.insns| <= |t.insns| <= |s.insns| + insns
    && |t.constants| <= |s.constants| + consts
    && t.stackSize <= Max(s.stackSize, s.regTop + regs)
  }

  /** One piece of code after the other, the second one with some registers of the first one held. */
  lemma TakesBoth(s: Builder, m: Builder, t: Builder, held: nat, regs: nat, consts: nat, insns: nat, regs': nat, consts': nat, insns': nat)
    requires Takes(s, m, regs, consts, insns) && m.regTop <= s.regTop + held && Takes(m, t, regs', consts', insns')
    ensures Takes(s, t, Max(regs, held + regs'), consts + consts', insns + insns')
  {
  }

  lemma TakesMore(s: Builder, t: Builder, regs: nat, consts: nat, insns: nat, regs': nat, consts': nat, insns': nat)
    requires Takes(s, t, regs, consts, insns) && regs <= regs' && consts <= consts' && insns <= insns'
    ensures Takes(s, t, regs', consts', insns')
  {
  }

  lemma ConstantAdded(s: Builder, k: Const)
    requires Room(s, 0, 1)
    ensures AddConstant(s, k).Ok? && Takes(s, AddConstant(s, k).value.0, 0, 1, 0)
  {
  }

  lemma Patches(s: Builder, labels: Labels, target: nat, lo: nat)
    requires Within(labels, lo, |s.insns|) && lo <= target <= |s.insns| < lo + MAX_JUMP_DISTANCE
    ensures PatchJumps(s, labels, target).Ok? && Takes(s, PatchJumps(s, labels, target).value, 0, 0, 0)
    decreases |labels|
  {
    if labels != [] {
      assert labels[0] in labels && forall l <- labels[1..] :: l in labels;
      Patches(PatchJump(s, labels[0], target).value, labels[1..], target, lo);
    }
  }

  lemma LocalsAreHeld(c: Context, e: Expr)
    requires Scoped(c, e)
    ensures LocalReg(c, e).Some? <==> IsLocal(e)
  {
  }

  lemma FastDecides(c: Context, e: Expr)
    ensures Decides(e) ==> IsConditionFast(c, e)
  {
  }

  // ----- expressions -----

  /** A constant is loaded in at most two words. */
  lemma KnownCompiles(c: Context, s: Builder, e: Expr, target: nat, temp: bool)
    requires e in c.known && Room(s, 0, 1)
    ensures ExprCode(c, s, e, target, temp).Ok? && Takes(s, ExprCode(c, s, e, target, temp).value, 0, 1, 2)
  {
    ConstantAdded(s, c.known[e]);
  }

  /** Everything that compiling an expression asks for. */
  predicate Enough(c: Context, s: Builder, e: Expr, regs: nat) {
    Scoped(c, e) && Room(s, regs, MaxConsts(e)) && MaxInsns(e) < 0x80_0000
  }

  lemma AtLeastOne(e: Expr)
    ensures MaxConsts(e) >= 1
  {
  }

  /** An expression compiles, and takes no more than its form says. */
  lemma {:induction false} ExprCompiles(c: Context, s: Builder, e: Expr, target: nat, temp: bool)
    requires Enough(c, s, e, ExprRegs(e, temp))
    ensures ExprCode(c, s, e, target, temp).Ok?
    ensures Takes(s, ExprCode(c, s, e, target, temp).value, ExprRegs(e, temp), MaxConsts(e), MaxInsns(e))
    decreases Size(e), 4
  {
    AtLeastOne(e);
    if e in c.known {
      KnownCompiles(c, s, e, target, temp);
      TakesMore(s, ExprCode(c, s, e, target, temp).value, 0, 1, 2, ExprRegs(e, temp), MaxConsts(e), MaxInsns(e));
    } else {
      match e
      case Group(x) => ExprCompiles(c, s, x, target, temp);
      case Literal(k) => ConstantAdded(s, k);
      case Local(_) =>
      case Upvalue(_) =>
      case Global(n) => ConstantAdded(s, CString(n));
      case Unary(_, _) => UnaryCompiles(c, s, e, target, temp);
      case Binary(Arith(_), _, _) => ArithCompiles(c, s, e, target);
      case Binary(Concat, _, _) => ConcatCompiles(c, s, e, target, temp);
      case Binary(Compare(_), _, _) => CompareCompiles(c, s, e, target, temp);
      case Binary(And, _, _) => AndOrCompiles(c, s, e, target, temp);
      case Binary(Or, _, _) => AndOrCompiles(c, s, e, target, temp);
      case IfElse(_, _, _) => IfElseCompiles(c, s, e, target, temp);
      case IndexName(_, _) => IndexNameCompiles(c, s, e, target, temp);
      case IndexExpr(_, _) => IndexCompiles(c, s, e, target);
    }
  }

  lemma {:induction false} UnaryCompiles(c: Context, s: Builder, e: Expr, target: nat, temp: bool)
    requires e.Unary? && e !in c.known && Enough(c, s, e, ExprRegs(e, temp))
    ensures ExprCode(c, s, e, target, temp).Ok?
    ensures Takes(s, ExprCode(c, s, e, target, temp).value, ExprRegs(e, temp), MaxConsts(e), MaxInsns(e))
    decreases Size(e), 3
  {
    AutoCompiles(c, s, e.operand);
  }

  lemma {:induction false} IndexNameCompiles(c: Context, s: Builder, e: Expr, target: nat, temp: bool)
    requires e.IndexName? && e !in c.known && Enough(c, s, e, ExprRegs(e, temp))
    ensures ExprCode(c, s, e, target, temp).Ok?
    ensures Takes(s, ExprCode(c, s, e, target, temp).value, ExprRegs(e, temp), MaxConsts(e), MaxInsns(e))
    decreases Size(e), 3
  {
    AutoCompiles(c, s, e.prefix);
    ConstantAdded(AutoCode(c, s, e.prefix).value.0, CString(e.key));
  }

  /** An operand compiles, and keeps at most one register. */
  lemma {:induction false} AutoCompiles(c: Context, s: Builder, e: Expr)
    requires Enough(c, s, e, AutoRegs(e))
    ensures AutoCode(c, s, e).Ok?
    ensures Takes(s, AutoCode(c, s, e).value.0, AutoRegs(e), MaxConsts(e), MaxInsns(e))
    ensures AutoCode(c, s, e).value.0.regTop == s.regTop + Held(e)
    decreases Size(e), 5
  {
    LocalsAreHeld(c, e);
    if !IsLocal(e) {
      ExprCompiles(c, AllocReg(s, 1).value, e, s.regTop, true);
    }
  }

  /** The same for an expression with a recorded constant. */
  lemma KnownOperand(c: Context, s: Builder, e: Expr)
    requires Scoped(c, e) && e in c.known && Room(s, Held(e), 1)
    ensures AutoCode(c, s, e).Ok?
    ensures Takes(s, AutoCode(c, s, e).value.0, Held(e), 1, 2) && AutoCode(c, s, e).value.0.regTop == s.regTop + Held(e)
  {
    LocalsAreHeld(c, e);
    if !IsLocal(e) {
      KnownCompiles(c, AllocReg(s, 1).value, e, s.regTop, true);
    }
  }

  lemma {:induction false} PairCompiles(c: Context, s: Builder, x: Expr, y: Expr)
    requires Scoped(c, x) && Scoped(c, y) && Room(s, PairRegs(x, y), MaxConsts(x) + MaxConsts(y))
    requires MaxInsns(x) + MaxInsns(y) < MAX_JUMP_DISTANCE
    ensures AutoCode(c, s, x).Ok? && AutoCode(c, AutoCode(c, s, x).value.0, y).Ok?
    ensures
      var t := AutoCode(c, AutoCode(c, s, x).value.0, y).value.0;
      Takes(s, t, PairRegs(x, y), MaxConsts(x) + MaxConsts(y), MaxInsns(x) + MaxInsns(y))
    decreases 1 + Size(x) + Size(y), 0
  {
    AutoCompiles(c, s, x);
    var s1 := AutoCode(c, s, x).value.0;
    AutoCompiles(c, s1, y);
    TakesBoth(s, s1, AutoCode(c, s1, y).value.0, Held(x), AutoRegs(x), MaxConsts(x), MaxInsns(x), AutoRegs(y), MaxConsts(y), MaxInsns(y));
  }

  /** Trying an operand as a constant. */
  lemma TriedCompiles(c: Context, s: Builder, e: Expr)
    requires Room(s, 0, 1)
    ensures ConstantNumber(c, s, e).Ok? && Takes(s, ConstantNumber(c, s, e).value.0, 0, 1, 0)
    ensures ConstantIndex(c, s, e).Ok? && Takes(s, ConstantIndex(c, s, e).value.0, 0, 1, 0)
  {
    if e in c.known {
      ConstantAdded(s, c.known[e]);
    }
  }

  lemma {:induction false} ArithRegsCompiles(c: Context, s: Builder, e: Expr, target: nat, oldTop: FrameSize, consts: nat)
    requires e.Binary? && e.bop.Arith? && Scoped(c, e) && MaxInsns(e) < MAX_JUMP_DISTANCE
    requires consts == MaxConsts(e.left) + MaxConsts(e.right) && Room(s, PairRegs(e.left, e.right), consts)
    ensures ArithRegs(c, s, e, target, oldTop).Ok?
    ensures Takes(s, ArithRegs(c, s, e, target, oldTop).value, PairRegs(e.left, e.right), consts, MaxInsns(e))
    decreases Size(e), 1
  {
    PairCompiles(c, s, e.left, e.right);
  }

  /** Without a constant on the right. */
  lemma {:induction false} ArithLeftCompiles(c: Context, s: Builder, e: Expr, target: nat, s1: Builder, rc: Option<nat>)
    requires e.Binary? && e.bop.Arith? && Enough(c, s, e, PairRegs(e.left, e.right))
    requires ConstantNumber(c, s, e.right) == Ok((s1, rc)) && !(rc.Some? && rc.value <= 255) && Takes(s, s1, 0, 1, 0)
    ensures ArithCode(c, s, e, target).Ok?
    ensures Takes(s, ArithCode(c, s, e, target).value, PairRegs(e.left, e.right), MaxConsts(e), MaxInsns(e))
    decreases Size(e), 2
  {
    if e.bop.arith == Sub || e.bop.arith == Div {
      TriedCompiles(c, s1, e.left);
      var (s2, lc) := ConstantNumber(c, s1, e.left).value;
      if lc.Some? && lc.value <= 255 {
        AutoCompiles(c, s2, e.right);
      } else {
        ArithRegsCompiles(c, s2, e, target, s.regTop, MaxConsts(e) - 2);
      }
    } else {
      ArithRegsCompiles(c, s1, e, target, s.regTop, MaxConsts(e) - 2);
    }
  }

  lemma {:induction false} ArithCompiles(c: Context, s: Builder, e: Expr, target: nat)
    requires e.Binary? && e.bop.Arith? && Enough(c, s, e, PairRegs(e.left, e.right))
    ensures ArithCode(c, s, e, target).Ok?
    ensures Takes(s, ArithCode(c, s, e, target).value, PairRegs(e.left, e.right), MaxConsts(e), MaxInsns(e))
    decreases Size(e), 3
  {
    TriedCompiles(c, s, e.right);
    var (s1, rc) := ConstantNumber(c, s, e.right).value;
    if rc.Some? && rc.value <= 255 {
      AutoCompiles(c, s1, e.left);
    } else {
      ArithLeftCompiles(c, s, e, target, s1, rc);
    }
  }

  lemma {:induction false} IndexCompiles(c: Context, s: Builder, e: Expr, target: nat)
    requires e.IndexExpr? && Enough(c, s, e, PairRegs(e.table, e.index))
    ensures IndexCode(c, s, e, target).Ok?
    ensures Takes(s, IndexCode(c, s, e, target).value, PairRegs(e.table, e.index), MaxConsts(e), MaxInsns(e))
    decreases Size(e), 2
  {
    AtLeastOne(e.index);
    if SmallIndex(c, e.index).Some? {
      AutoCompiles(c, s, e.table);
    } else if e.index in c.known && c.known[e.index].CString? {
      ConstantAdded(s, c.known[e.index]);
      AutoCompiles(c, AddConstant(s, c.known[e.index]).value.0, e.table);
    } else {
      PairCompiles(c, s, e.table, e.index);
    }
  }

  // ----- concatenation -----

  function ListRegs(es: seq<Expr>): nat {
    if es == [] then 0 else Max(ExprRegs(es[0], true), ListRegs(es[1..]))
  }

  function ListConsts(es: seq<Expr>): nat {
    if es == [] then 0 else MaxConsts(es[0]) + ListConsts(es[1..])
  }

  function ListInsns(es: seq<Expr>): nat {
    if es == [] then 0 else MaxInsns(es[0]) + ListInsns(es[1..])
  }

  predicate AllScoped(c: Context, es: seq<Expr>) {
    es == [] || (Scoped(c, es[0]) && AllScoped(c, es[1..]))
  }

  lemma {:induction false} OperandsTake(c: Context, e: Expr)
    requires e.Binary? && e.bop.Concat?
    ensures
      var es := ConcatOperands(e);
      && |es| == Operands(e) && ListRegs(es) == OperandRegs(e) && ListConsts(es) == MaxConsts(e) && ListInsns(es) < MaxInsns(e)
      && (Scoped(c, e) ==> AllScoped(c, es))
    decreases e
  {
    var es := ConcatOperands(e);
    if e.right.Binary? && e.right.bop.Concat? {
      OperandsTake(c, e.right);
      assert es[1..] == ConcatOperands(e.right);
    } else {
      assert es[1..] == [e.right] && es[1..][1..] == [];
      assert ListRegs([e.right]) == Max(ExprRegs(e.right, true), ListRegs([])) && ListConsts([e.right]) == MaxConsts(e.right) + ListConsts([]);
      assert ListInsns([e.right]) == MaxInsns(e.right) + ListInsns([]) && (AllScoped(c, [e.right]) <==> Scoped(c, e.right) && AllScoped(c, []));
    }
  }

  lemma {:induction false} ListCompiles(c: Context, s: Builder, es: seq<Expr>, base: nat)
    requires AllScoped(c, es) && Room(s, ListRegs(es), ListConsts(es)) && ListInsns(es) < MAX_JUMP_DISTANCE
    ensures ListCode(c, s, es, base).Ok? && Takes(s, ListCode(c, s, es, base).value, ListRegs(es), ListConsts(es), ListInsns(es))
    decreases ListSize(es), 5, |es|
  {
    if es != [] {
      ExprCompiles(c, s, es[0], base, true);
      ListCompiles(c, ExprCode(c, s, es[0], base, true).value, es[1..], base + 1);
    }
  }

  lemma {:induction false} ConcatCompiles(c: Context, s: Builder, e: Expr, target: nat, temp: bool)
    requires e.Binary? && e.bop.Concat? && e !in c.known && Enough(c, s, e, ExprRegs(e, temp))
    ensures ExprCode(c, s, e, target, temp).Ok?
    ensures Takes(s, ExprCode(c, s, e, target, temp).value, ExprRegs(e, temp), MaxConsts(e), MaxInsns(e))
    decreases Size(e), 3
  {
    OperandsTake(c, e);
    ConcatOperandsSize(e);
    var args := ConcatOperands(e);
    ListCompiles(c, AllocReg(s, |args|).value, args, s.regTop);
  }

  // ----- comparisons and conditions -----

  lemma ConstantCompared(s: Builder, reg: nat, k: Const, flip: bool)
    requires !k.CVector? && Room(s, 0, 1)
    ensures CompareConstant(s, reg, k, flip).Ok? && Takes(s, CompareConstant(s, reg, k, flip).value, 0, 1, 2)
  {
    ConstantAdded(s, k);
  }

  lemma RegistersCompared(s: Builder, op: CompareOp, negate: bool, rl: nat, rr: nat)
    ensures Takes(s, CompareRegs(s, op, negate, rl, rr), 0, 0, 2)
  {
  }

  /** A comparison with a constant on the right. */
  lemma {:induction false} WithConstantCompiles(c: Context, s: Builder, op: CompareOp, x: Expr, y: Expr, negate: bool)
    requires Scoped(c, x) && (op == Eq || op == Ne) && y in c.known && !c.known[y].CVector?
    requires Room(s, AutoRegs(x), MaxConsts(x) + 1) && MaxInsns(x) < MAX_JUMP_DISTANCE
    ensures CompareOperands(c, s, op, x, y, negate).Ok?
    ensures Takes(s, CompareOperands(c, s, op, x, y, negate).value.0, AutoRegs(x), MaxConsts(x) + 1, MaxInsns(x) + 2)
    decreases 1 + Size(x) + Size(y), 1
  {
    AutoCompiles(c, s, x);
    var (s1, rl) := AutoCode(c, s, x).value;
    ConstantCompared(s1, rl, c.known[y], (op == Eq) == negate);
  }

  lemma {:induction false} WithRegistersCompiles(c: Context, s: Builder, op: CompareOp, x: Expr, y: Expr, negate: bool,
                                                 regs: nat, consts: nat, insns: nat)
    requires !((op == Eq || op == Ne) && y in c.known && !c.known[y].CVector?)
    requires AutoCode(c, s, x).Ok? && AutoCode(c, AutoCode(c, s, x).value.0, y).Ok?
    requires Takes(s, AutoCode(c, AutoCode(c, s, x).value.0, y).value.0, regs, consts, insns)
    ensures CompareOperands(c, s, op, x, y, negate).Ok?
    ensures Takes(s, CompareOperands(c, s, op, x, y, negate).value.0, regs, consts, insns + 2)
  {
    var (s1, rl) := AutoCode(c, s, x).value;
    var (s2, rr) := AutoCode(c, s1, y).value;
    RegistersCompared(s2, op, negate, rl, rr);
  }

  /** A comparison. */
  lemma {:induction false} OperandsCompile(c: Context, s: Builder, op: CompareOp, x: Expr, y: Expr, negate: bool)
    requires Scoped(c, x) && Scoped(c, y) && Room(s, PairRegs(x, y), MaxConsts(x) + MaxConsts(y))
    requires MaxInsns(x) + MaxInsns(y) < MAX_JUMP_DISTANCE
    ensures CompareOperands(c, s, op, x, y, negate).Ok?
    ensures Takes(s, CompareOperands(c, s, op, x, y, negate).value.0, PairRegs(x, y), MaxConsts(x) + MaxConsts(y),
                  MaxInsns(x) + MaxInsns(y) + 2)
    decreases 1 + Size(x) + Size(y), 2
  {
    if (op == Eq || op == Ne) && y in c.known && !c.known[y].CVector? {
      AtLeastOne(y);
      WithConstantCompiles(c, s, op, x, y, negate);
    } else {
      PairCompiles(c, s, x, y);
      WithRegistersCompiles(c, s, op, x, y, negate, PairRegs(x, y), MaxConsts(x) + MaxConsts(y), MaxInsns(x) + MaxInsns(y));
    }
  }

  /** With a constant on the left, the operands change places. */
  lemma {:induction false} SwappedCompiles(c: Context, s: Builder, op: CompareOp, x: Expr, y: Expr, negate: bool)
    requires Scoped(c, x) && Scoped(c, y) && x in c.known && (op == Eq || op == Ne)
    requires Room(s, PairRegs(x, y), MaxConsts(x) + MaxConsts(y)) && MaxInsns(x) + MaxInsns(y) < MAX_JUMP_DISTANCE
    ensures CompareOperands(c, s, op, y, x, negate).Ok?
    ensures Takes(s, CompareOperands(c, s, op, y, x, negate).value.0, PairRegs(x, y), MaxConsts(x) + MaxConsts(y),
                  MaxInsns(x) + MaxInsns(y) + 2)
    decreases 1 + Size(x) + Size(y), 2
  {
    AtLeastOne(x);
    if !c.known[x].CVector? {
      WithConstantCompiles(c, s, op, y, x, negate);
    } else {
      KnownSecond(c, s, x, y);
      WithRegistersCompiles(c, s, op, y, x, negate, PairRegs(x, y), MaxConsts(x) + MaxConsts(y), MaxInsns(x) + MaxInsns(y));
    }
  }

  lemma {:induction false} KnownSecond(c: Context, s: Builder, x: Expr, y: Expr)
    requires Scoped(c, x) && Scoped(c, y) && x in c.known
    requires Room(s, PairRegs(x, y), MaxConsts(x) + MaxConsts(y)) && MaxInsns(x) + MaxInsns(y) < MAX_JUMP_DISTANCE
    ensures AutoCode(c, s, y).Ok? && AutoCode(c, AutoCode(c, s, y).value.0, x).Ok?
    ensures Takes(s, AutoCode(c, AutoCode(c, s, y).value.0, x).value.0, PairRegs(x, y), MaxConsts(x) + MaxConsts(y),
                  MaxInsns(x) + MaxInsns(y))
    decreases 1 + Size(x) + Size(y), 1
  {
    AtLeastOne(x);
    AutoCompiles(c, s, y);
    var s1 := AutoCode(c, s, y).value.0;
    KnownOperand(c, s1, x);
    TakesBoth(s, s1, AutoCode(c, s1, x).value.0, Held(y), AutoRegs(y), MaxConsts(y), MaxInsns(y), Held(x), 1, 2);
  }

  lemma {:induction false} JumpCompiles(c: Context, s: Builder, e: Expr, negate: bool)
    requires e.Binary? && e.bop.Compare? && Enough(c, s, e, PairRegs(e.left, e.right))
    ensures CompareJump(c, s, e, negate).Ok?
    ensures Takes(s, CompareJump(c, s, e, negate).value.0, PairRegs(e.left, e.right), MaxConsts(e), MaxInsns(e) - 2)
    decreases Size(e), 3, 0
  {
    var op := e.bop.compare;
    if (op == Eq || op == Ne) && e.right !in c.known && e.left in c.known {
      SwappedCompiles(c, s, op, e.left, e.right, negate);
    } else {
      OperandsCompile(c, s, op, e.left, e.right, negate);
    }
  }

  lemma {:induction false} CompareCompiles(c: Context, s: Builder, e: Expr, target: nat, temp: bool)
    requires e.Binary? && e.bop.Compare? && e !in c.known && Enough(c, s, e, ExprRegs(e, temp))
    ensures ExprCode(c, s, e, target, temp).Ok?
    ensures Takes(s, ExprCode(c, s, e, target, temp).value, ExprRegs(e, temp), MaxConsts(e), MaxInsns(e))
    decreases Size(e), 3, 1
  {
    JumpCompiles(c, s, e, false);
  }

  /** A condition compiles, in one word more than the value would take. */
  lemma {:induction false} CondCompiles(c: Context, s: Builder, e: Expr, target: Option<nat>, onlyTruth: bool)
    requires Enough(c, s, e, CondRegs(e, target.Some?))
    ensures CondCode(c, s, e, target, onlyTruth).Ok?
    ensures Takes(s, CondCode(c, s, e, target, onlyTruth).value.0, CondRegs(e, target.Some?), MaxConsts(e), MaxInsns(e) + 1)
    decreases Size(e), 6
  {
    AtLeastOne(e);
    if e in c.known {
      if target.Some? {
        KnownCompiles(c, s, e, target.value, true);
      }
    } else if e.Binary? && (e.bop.And? || e.bop.Or?) {
      CondAndOrCompiles(c, s, e, target, onlyTruth);
    } else if e.Binary? && e.bop.Compare? {
      CondCompareCompiles(c, s, e, target, onlyTruth);
    } else if target.None? && e.Unary? && e.uop.Not? {
      CondCompiles(c, s, e.operand, target, !onlyTruth);
    } else if e.Group? {
      CondCompiles(c, s, e.inner, target, onlyTruth);
    } else if target.Some? {
      ExprCompiles(c, s, e, target.value, true);
    } else {
      AutoCompiles(c, s, e);
    }
  }

  lemma {:induction false} CondCompareCompiles(c: Context, s: Builder, e: Expr, target: Option<nat>, onlyTruth: bool)
    requires e.Binary? && e.bop.Compare? && e !in c.known && Enough(c, s, e, CondRegs(e, target.Some?))
    ensures CondCode(c, s, e, target, onlyTruth).Ok?
    ensures Takes(s, CondCode(c, s, e, target, onlyTruth).value.0, CondRegs(e, target.Some?), MaxConsts(e), MaxInsns(e) + 1)
    decreases Size(e), 5
  {
    var s1 := if target.Some? then EmitABC(s, LOADB, target.value, if onlyTruth then 1 else 0, 0) else s;
    JumpCompiles(c, s1, e, !onlyTruth);
  }

  /** One condition after the other. */
  lemma {:induction false} CondsCompile(c: Context, s: Builder, x: Expr, target: Option<nat>, ifX: bool, y: Expr, target': Option<nat>, ifY: bool)
    requires Scoped(c, x) && Scoped(c, y) && MaxInsns(x) + MaxInsns(y) < MAX_JUMP_DISTANCE
    requires Room(s, Max(CondRegs(x, target.Some?), CondRegs(y, target'.Some?)), MaxConsts(x) + MaxConsts(y))
    ensures CondCode(c, s, x, target, ifX).Ok? && CondCode(c, CondCode(c, s, x, target, ifX).value.0, y, target', ifY).Ok?
    ensures Takes(s, CondCode(c, CondCode(c, s, x, target, ifX).value.0, y, target', ifY).value.0,
                  Max(CondRegs(x, target.Some?), CondRegs(y, target'.Some?)), MaxConsts(x) + MaxConsts(y), MaxInsns(x) + MaxInsns(y) + 2)
    decreases 1 + Size(x) + Size(y), 3
  {
    CondCompiles(c, s, x, target, ifX);
    CondCompiles(c, CondCode(c, s, x, target, ifX).value.0, y, target', ifY);
  }

  lemma {:induction false} CondElseCompiles(c: Context, s: Builder, e: Expr, target: Option<nat>, onlyTruth: bool)
    requires e.Binary? && (e.bop.And? || e.bop.Or?) && onlyTruth == e.bop.And? && Enough(c, s, e, CondRegs(e, target.Some?))
    ensures CondAndOr(c, s, e, target, onlyTruth).Ok?
    ensures Takes(s, CondAndOr(c, s, e, target, onlyTruth).value.0, CondRegs(e, target.Some?), MaxConsts(e), MaxInsns(e))
    decreases Size(e), 4
  {
    CondsCompile(c, s, e.left, None, !onlyTruth, e.right, target, onlyTruth);
    var (s1, elseJump) := CondCode(c, s, e.left, None, !onlyTruth).value;
    var s2 := CondCode(c, s1, e.right, target, onlyTruth).value.0;
    Patches(s2, elseJump, |s2.insns|, |s.insns|);
  }

  lemma {:induction false} CondAndOrCompiles(c: Context, s: Builder, e: Expr, target: Option<nat>, onlyTruth: bool)
    requires e.Binary? && (e.bop.And? || e.bop.Or?) && Enough(c, s, e, CondRegs(e, target.Some?))
    ensures CondAndOr(c, s, e, target, onlyTruth).Ok?
    ensures Takes(s, CondAndOr(c, s, e, target, onlyTruth).value.0, CondRegs(e, target.Some?), MaxConsts(e), MaxInsns(e))
    decreases Size(e), 5
  {
    if onlyTruth == e.bop.And? {
      CondElseCompiles(c, s, e, target, onlyTruth);
    } else {
      CondsCompile(c, s, e.left, target, onlyTruth, e.right, target, onlyTruth);
    }
  }

  // ----- and, or, if-else -----

  lemma {:induction false} JumpsCompile(c: Context, s: Builder, e: Expr, reg: nat)
    requires e.Binary? && (e.bop.And? || e.bop.Or?) && Scoped(c, e)
    requires Room(s, Max(CondRegs(e.left, true), ExprRegs(e.right, true)), MaxConsts(e) - 1) && MaxInsns(e) < MAX_JUMP_DISTANCE
    ensures AndOrJumps(c, s, e, reg).Ok?
    ensures Takes(s, AndOrJumps(c, s, e, reg).value, Max(CondRegs(e.left, true), ExprRegs(e.right, true)), MaxConsts(e) - 1, MaxInsns(e) - 1)
    decreases Size(e), 2, 0
  {
    CondCompiles(c, s, e.left, Some(reg), e.bop.Or?);
    var (s1, skip) := CondCode(c, s, e.left, Some(reg), e.bop.Or?).value;
    ExprCompiles(c, s1, e.right, reg, true);
    var s2 := ExprCode(c, s1, e.right, reg, true).value;
    Patches(s2, skip, |s2.insns|, |s.insns|);
  }

  /** With a register of its own, from which the value is moved. */
  lemma {:induction false} JumpsAsideCompile(c: Context, s: Builder, e: Expr, target: nat)
    requires e.Binary? && (e.bop.And? || e.bop.Or?) && Scoped(c, e)
    requires Room(s, 1 + Max(CondRegs(e.left, true), ExprRegs(e.right, true)), MaxConsts(e) - 1) && MaxInsns(e) < MAX_JUMP_DISTANCE
    ensures AllocReg(s, 1).Ok? && AndOrJumps(c, AllocReg(s, 1).value, e, s.regTop).Ok?
    ensures
      var s3 := AndOrJumps(c, AllocReg(s, 1).value, e, s.regTop).value;
      Takes(s, if target != s.regTop then EmitABC(s3, MOVE, target, s.regTop, 0) else s3,
            1 + Max(CondRegs(e.left, true), ExprRegs(e.right, true)), MaxConsts(e) - 1, MaxInsns(e))
    decreases Size(e), 2, 1
  {
    JumpsCompile(c, AllocReg(s, 1).value, e, s.regTop);
  }

  lemma {:induction false} AndOrConstantCompiles(c: Context, s: Builder, e: Expr, s1: Builder)
    requires e.Binary? && (e.bop.And? || e.bop.Or?) && Scoped(c, e) && MaxInsns(e) < MAX_JUMP_DISTANCE
    requires Room(s, AutoRegs(e.left), MaxConsts(e)) && Takes(s, s1, 0, 1, 0) && s1.regTop == s.regTop
    ensures AutoCode(c, s1, e.left).Ok?
    ensures Takes(s, AutoCode(c, s1, e.left).value.0, AutoRegs(e.left), MaxConsts(e), MaxInsns(e) - 1)
    decreases Size(e), 2
  {
    AtLeastOne(e.right);
    AutoCompiles(c, s1, e.left);
  }

  /** The right side as a constant operand, or the jumps. */
  lemma {:induction false} AndOrTried(c: Context, s: Builder, e: Expr, target: nat, temp: bool, s1: Builder, id: Option<nat>)
    requires e.Binary? && (e.bop.And? || e.bop.Or?) && Enough(c, s, e, AndOrRegs(e, temp))
    requires e.left !in c.known && !(!IsConditionFast(c, e.left) && LocalReg(c, e.right).Some?) && (Decides(e.left) ==> id.None?)
    requires (if IsConditionFast(c, e.left) then Ok((s, None)) else ConstantIndex(c, s, e.right)) == Ok((s1, id))
    requires Takes(s, s1, 0, 1, 0) && s1.regTop == s.regTop
    ensures AndOrCode(c, s, e, target, temp).Ok?
    ensures Takes(s, AndOrCode(c, s, e, target, temp).value, AndOrRegs(e, temp), MaxConsts(e), MaxInsns(e))
    decreases Size(e), 3, 0
  {
    if id.Some? && id.value <= 255 {
      AndOrConstantCompiles(c, s, e, s1);
    } else if temp {
      JumpsCompile(c, s1, e, target);
      TakesBoth(s, s1, AndOrJumps(c, s1, e, target).value, 0, 0, 1, 0,
                Max(CondRegs(e.left, true), ExprRegs(e.right, true)), MaxConsts(e) - 1, MaxInsns(e) - 1);
    } else {
      JumpsAsideCompile(c, s1, e, target);
    }
  }

  /** The left side is known: one of the two is all of it. */
  lemma {:induction false} AndOrKnown(c: Context, s: Builder, e: Expr, target: nat, temp: bool)
    requires e.Binary? && (e.bop.And? || e.bop.Or?) && Enough(c, s, e, AndOrRegs(e, temp)) && e.left in c.known
    ensures AndOrCode(c, s, e, target, temp).Ok?
    ensures Takes(s, AndOrCode(c, s, e, target, temp).value, AndOrRegs(e, temp), MaxConsts(e), MaxInsns(e))
    decreases Size(e), 3, 0
  {
    if e.bop.And? == Truthful(c.known[e.left]) {
      ExprCompiles(c, s, e.right, target, temp);
    } else {
      KnownCompiles(c, s, e.left, target, temp);
    }
  }

  lemma {:induction false} AndOrCompiles(c: Context, s: Builder, e: Expr, target: nat, temp: bool)
    requires e.Binary? && (e.bop.And? || e.bop.Or?) && Enough(c, s, e, AndOrRegs(e, temp))
    ensures AndOrCode(c, s, e, target, temp).Ok?
    ensures Takes(s, AndOrCode(c, s, e, target, temp).value, AndOrRegs(e, temp), MaxConsts(e), MaxInsns(e))
    decreases Size(e), 3
  {
    FastDecides(c, e.left);
    if e.left in c.known {
      AndOrKnown(c, s, e, target, temp);
    } else if !IsConditionFast(c, e.left) && LocalReg(c, e.right).Some? {
      AutoCompiles(c, s, e.left);
    } else {
      TriedCompiles(c, s, e.right);
      var (s1, id) := if IsConditionFast(c, e.left) then (s, None) else ConstantIndex(c, s, e.right).value;
      AndOrTried(c, s, e, target, temp, s1, id);
    }
  }

  /** A branch that is a local or a constant. */
  lemma IfElseOneCompiles(c: Context, s: Builder, and: bool, creg: nat, other: Expr, target: nat)
    requires Scoped(c, other) && (LocalReg(c, other).Some? || other in c.known) && Room(s, 1, 2)
    ensures IfElseAndOr(c, s, and, creg, other, target).Ok?
    ensures Takes(s, IfElseAndOr(c, s, and, creg, other, target).value, 1, 2, 3)
  {
    TriedCompiles(c, s, other);
    var (s1, id) := ConstantIndex(c, s, other).value;
    if !(id.Some? && id.value <= 255) {
      if other in c.known {
        KnownOperand(c, s1, other);
      }
    }
  }

  predicate IsOne(c: Context, e: Expr, and: bool)
    requires e.IfElse?
  {
    var same, other := if and then e.elseExpr else e.thenExpr, if and then e.thenExpr else e.elseExpr;
    LocalReg(c, e.cond).Some? && LocalReg(c, e.cond) == LocalReg(c, same) && (LocalReg(c, other).Some? || other in c.known)
  }

  lemma IfElseOne(c: Context, s: Builder, e: Expr, target: nat, temp: bool, and: bool)
    requires e.IfElse? && e.cond !in c.known && Enough(c, s, e, ExprRegs(e, temp))
    requires IsOne(c, e, and) && (and ==> !IsOne(c, e, false))
    ensures IfElseCode(c, s, e, target, temp).Ok?
    ensures Takes(s, IfElseCode(c, s, e, target, temp).value, ExprRegs(e, temp), MaxConsts(e), MaxInsns(e))
  {
    LocalsAreHeld(c, e.cond);
    AtLeastOne(e.cond);
    AtLeastOne(e.thenExpr);
    IfElseOneCompiles(c, s, and, LocalReg(c, e.cond).value, if and then e.thenExpr else e.elseExpr, target);
  }

  lemma {:induction false} IfElseCompiles(c: Context, s: Builder, e: Expr, target: nat, temp: bool)
    requires e.IfElse? && Enough(c, s, e, ExprRegs(e, temp))
    ensures IfElseCode(c, s, e, target, temp).Ok?
    ensures Takes(s, IfElseCode(c, s, e, target, temp).value, ExprRegs(e, temp), MaxConsts(e), MaxInsns(e))
    decreases Size(e), 3
  {
    if e.cond in c.known {
      ExprCompiles(c, s, if Truthful(c.known[e.cond]) then e.thenExpr else e.elseExpr, target, temp);
    } else if IsOne(c, e, false) {
      IfElseOne(c, s, e, target, temp, false);
    } else if IsOne(c, e, true) {
      IfElseOne(c, s, e, target, temp, true);
    } else {
      BranchesCompile(c, s, e, target, temp);
    }
  }

  /** The condition and the first branch. */
  lemma {:induction false} ThenCompiles(c: Context, s: Builder, e: Expr, target: nat, temp: bool)
    requires e.IfElse? && Enough(c, s, e, ExprRegs(e, temp))
    ensures CondCode(c, s, e.cond, None, false).Ok?
    ensures
      var s1 := CondCode(c, s, e.cond, None, false).value.0;
      && ExprCode(c, s1, e.thenExpr, target, temp).Ok?
      && Takes(s, ExprCode(c, s1, e.thenExpr, target, temp).value, ExprRegs(e, temp), MaxConsts(e.cond) + MaxConsts(e.thenExpr),
               MaxInsns(e.cond) + 1 + MaxInsns(e.thenExpr))
    decreases Size(e), 1
  {
    CondCompiles(c, s, e.cond, None, false);
    ExprCompiles(c, CondCode(c, s, e.cond, None, false).value.0, e.thenExpr, target, temp);
  }

  /** Both branches, and the jumps around them. */
  lemma {:induction false} BranchesCompile(c: Context, s: Builder, e: Expr, target: nat, temp: bool)
    requires e.IfElse? && e.cond !in c.known && !IsOne(c, e, false) && !IsOne(c, e, true) && Enough(c, s, e, ExprRegs(e, temp))
    ensures IfElseCode(c, s, e, target, temp).Ok?
    ensures Takes(s, IfElseCode(c, s, e, target, temp).value, ExprRegs(e, temp), MaxConsts(e), MaxInsns(e))
    decreases Size(e), 2
  {
    ThenCompiles(c, s, e, target, temp);
    var (s1, elseJump) := CondCode(c, s, e.cond, None, false).value;
    var s2 := ExprCode(c, s1, e.thenExpr, target, temp).value;
    var s3 := EmitAD(s2, JUMP, 0, 0);
    ExprCompiles(c, s3, e.elseExpr, target, temp);
    var s4 := ExprCode(c, s3, e.elseExpr, target, temp).value;
    Patches(s4, elseJump, |s3.insns|, |s.insns|);
    var s5 := PatchJumps(s4, elseJump, |s3.insns|).value;
    assert PatchJump(s5, |s2.insns|, |s4.insns|).Ok?;
  }
}
