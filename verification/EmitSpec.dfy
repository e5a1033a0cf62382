/**
 What the code generator emits, as functions from builder state to builder state.

 A builder is the instruction stream with its constant table and the register allocator. Jumps
 are emitted with offset 0 and patched when their target is known; a condition returns the labels
 of the jumps that its user still has to patch.
 */
module EmitSpec {
  import opened Results
  import opened LuaSource
  import opened RegisterVm

  const MAX_REGISTERS: nat := 255
  const MAX_CONSTANTS: nat := 0x80_0000
  const MAX_JUMP_DISTANCE: nat := 0x80_0000

  datatype CompileError = OutOfRegisters | ConstantLimit | JumpDistance | UnresolvedLocal

  type Outcome<T> = Result<T, CompileError>

  /** What is fixed while one statement is compiled: the registers of the locals in scope, and the
      expressions whose value constant folding has found. */
  datatype Context = Context(locals: map<LocalId, nat>, known: map<Expr, Const>, optimize: bool)

  /** The size of a register frame. */
  type FrameSize = n: nat | n <= MAX_REGISTERS

  datatype Builder = Builder(insns: seq<Insn>, constants: seq<Const>, regTop: FrameSize, stackSize: FrameSize)

  type Labels = seq<nat>

  function Emit(s: Builder, i: Insn): Builder {
    s.(insns := s.insns + [i])
  }

  function EmitABC(s: Builder, op: Opcode, a: nat, b: nat, c: nat): Builder {
    Emit(s, ABC(op, a, b, c))
  }

  function EmitAD(s: Builder, op: Opcode, a: nat, d: int): Builder {
    Emit(s, AD(op, a, d))
  }

  function EmitAux(s: Builder, word: nat, flip: bool): Builder {
    Emit(s, Aux(word, flip))
  }

  function AllocReg(s: Builder, count: nat): Outcome<Builder> {
    if s.regTop + count > MAX_REGISTERS then Err(OutOfRegisters)
    else
      var top := s.regTop + count;
      Ok(s.(regTop := top, stackSize := if top > s.stackSize then top else s.stackSize))
  }

  function Find(ks: seq<Const>, c: Const): (r: Option<nat>)
    ensures r.Some? ==> r.value < |ks| && ks[r.value] == c
    ensures r.None? ==> c !in ks
  {
    if ks == [] then None
    else if ks[|ks| - 1] == c then Some(|ks| - 1)
    else Find(ks[..|ks| - 1], c)
  }

  function AddConstant(s: Builder, c: Const): (r: Outcome<(Builder, nat)>)
    ensures r.Ok? ==>
      && r.value.0 == s.(constants := r.value.0.constants)
      && s.constants <= r.value.0.constants
      && r.value.1 < |r.value.0.constants|
      && r.value.0.constants[r.value.1] == c
  {
    match Find(s.constants, c)
    case Some(id) => Ok((s, id))
    case None =>
      if |s.constants| >= MAX_CONSTANTS then Err(ConstantLimit)
      else Ok((s.(constants := s.constants + [c]), |s.constants|))
  }

  function Retarget(i: Insn, d: int): Insn {
    if i.AD? then i.(d := d) else i
  }

  function PatchJump(s: Builder, site: nat, target: nat): Outcome<Builder>
    requires site < |s.insns|
  {
    var offset := target - site - 1;
    if 0 - MAX_JUMP_DISTANCE < offset < MAX_JUMP_DISTANCE then
      Ok(s.(insns := s.insns[site := Retarget(s.insns[site], offset)]))
    else Err(JumpDistance)
  }

  predicate Within(labels: Labels, lo: nat, hi: nat) {
    forall l <- labels :: lo <= l < hi
  }

  /** The instruction at `i` once the labels are patched to jump to `target`. */
  function Patched(insns: seq<Insn>, labels: Labels, target: int, i: nat): Insn
    requires i < |insns|
  {
    if i in labels then Retarget(insns[i], target - i - 1) else insns[i]
  }

  function PatchJumps(s: Builder, labels: Labels, target: nat): (r: Outcome<Builder>)
    requires Within(labels, 0, |s.insns|)
    ensures r.Ok? ==> r.value == s.(insns := r.value.insns) && |r.value.insns| == |s.insns|
    ensures r.Ok? ==> forall i :: 0 <= i < |s.insns| ==> r.value.insns[i] == Patched(s.insns, labels, target, i)
    decreases |labels|
  {
    if labels == [] then Ok(s)
    else
      assert labels[0] in labels && forall l <- labels[1..] :: l in labels;
      var s1 :- PatchJump(s, labels[0], target);
      PatchJumps(s1, labels[1..], target)
  }

  /** Code is only appended, and constants and stack only grow. */
  predicate Grows(s: Builder, t: Builder) {
    s.insns <= t.insns && s.constants <= t.constants && s.stackSize <= t.stackSize
  }

  // ----- what is known about an expression -----

  function LocalReg(c: Context, e: Expr): Option<nat> {
    match e
    case Local(l) => if l in c.locals then Some(c.locals[l]) else None
    case Group(x) => LocalReg(c, x)
    case _ => None
  }

  predicate IsConditionFast(c: Context, e: Expr) {
    e in c.known ||
    match e
    case Binary(And, _, _) => true
    case Binary(Or, _, _) => true
    case Binary(Compare(_), _, _) => true
    case Group(x) => IsConditionFast(c, x)
    case _ => false
  }

  function ConstantNumber(c: Context, s: Builder, e: Expr): (r: Outcome<(Builder, Option<nat>)>)
    ensures r.Ok? ==>
      && r.value.0 == s.(constants := r.value.0.constants)
      && s.constants <= r.value.0.constants
      && (r.value.1.Some? ==>
            e in c.known && c.known[e].CNumber? && r.value.1.value < |r.value.0.constants|
            && r.value.0.constants[r.value.1.value] == c.known[e])
  {
    if e in c.known && c.known[e].CNumber? then
      var (s1, id) :- AddConstant(s, c.known[e]);
      Ok((s1, Some(id)))
    else Ok((s, None))
  }

  function ConstantIndex(c: Context, s: Builder, e: Expr): (r: Outcome<(Builder, Option<nat>)>)
    ensures r.Ok? ==>
      && r.value.0 == s.(constants := r.value.0.constants)
      && s.constants <= r.value.0.constants
      && (r.value.1.Some? <==> e in c.known)
      && (r.value.1.Some? ==>
            r.value.1.value < |r.value.0.constants| && r.value.0.constants[r.value.1.value] == c.known[e])
  {
    if e in c.known then
      var (s1, id) :- AddConstant(s, c.known[e]);
      Ok((s1, Some(id)))
    else Ok((s, None))
  }

  /** The key of an access that needs no register: a number from 1 to 256, or a string. */
  function SmallIndex(c: Context, i: Expr): Option<nat> {
    if i in c.known && c.known[i].CNumber? && c.known[i].n.Integral? && 1 <= c.known[i].n.value <= 256
    then Some(c.known[i].n.value - 1) else None
  }

  // ----- expressions -----

  function EmitLoadK(s: Builder, target: nat, id: nat): Builder {
    if id < 32768 then EmitAD(s, LOADK, target, id)
    else EmitAux(EmitAD(s, LOADKX, target, 0), id, false)
  }

  function ConstantExpr(s: Builder, k: Const, target: nat): (r: Outcome<Builder>)
    ensures r.Ok? ==> Grows(s, r.value) && r.value.regTop == s.regTop
  {
    match k
    case CNil => Ok(EmitABC(s, LOADNIL, target, 0, 0))
    case CBool(b) => Ok(EmitABC(s, LOADB, target, if b then 1 else 0, 0))
    case CNumber(n) =>
      if n.Integral? && -32768 <= n.value <= 32767 then Ok(EmitAD(s, LOADN, target, n.value))
      else
        var (s1, id) :- AddConstant(s, k);
        Ok(EmitLoadK(s1, target, id))
    case _ =>
      var (s1, id) :- AddConstant(s, k);
      Ok(EmitLoadK(s1, target, id))
  }

  function LiteralExpr(s: Builder, k: Const, target: nat): (r: Outcome<Builder>)
    ensures r.Ok? ==> Grows(s, r.value) && r.value.regTop == s.regTop
  {
    match k
    case CNil => Ok(EmitABC(s, LOADNIL, target, 0, 0))
    case CBool(b) => Ok(EmitABC(s, LOADB, target, if b then 1 else 0, 0))
    case _ =>
      var (s1, id) :- AddConstant(s, k);
      Ok(EmitLoadK(s1, target, id))
  }

  function UnaryOpcode(op: UnaryOp): Opcode {
    match op
    case Not => NOT
    case Minus => MINUS
    case Len => LENGTH
  }

  function CompareOpcode(op: CompareOp, negate: bool): Opcode {
    match op
    case Ne => JUMPCMP(VmEq, !negate)
    case Eq => JUMPCMP(VmEq, negate)
    case Lt => JUMPCMP(VmLt, negate)
    case Gt => JUMPCMP(VmLt, negate)
    case Le => JUMPCMP(VmLe, negate)
    case Ge => JUMPCMP(VmLe, negate)
  }

  /** The operands of a concatenation, unrolled along its right side. */
  function ConcatOperands(e: Expr): (es: seq<Expr>)
    requires e.Binary? && e.bop.Concat?
    ensures |es| >= 2
  {
    if e.right.Binary? && e.right.bop.Concat? then [e.left] + ConcatOperands(e.right)
    else [e.left, e.right]
  }

  ghost function ListSize(es: seq<Expr>): nat {
    if es == [] then 0 else Size(es[0]) + ListSize(es[1..])
  }

  lemma {:induction false} ConcatOperandsSize(e: Expr)
    requires e.Binary? && e.bop.Concat?
    ensures ListSize(ConcatOperands(e)) < Size(e)
  {
    var es := ConcatOperands(e);
    if e.right.Binary? && e.right.bop.Concat? {
      ConcatOperandsSize(e.right);
      assert es[1..] == ConcatOperands(e.right);
    } else {
      assert es[1..] == [e.right] && es[1..][1..] == [];
      assert ListSize(es[1..]) == Size(e.right) + ListSize([]);
    }
  }

  /** Evaluates `e` into `target`. When `temp` holds, `target` may be overwritten on the way. */
  function ExprCode(c: Context, s: Builder, e: Expr, target: nat, temp: bool): (r: Outcome<Builder>)
    ensures r.Ok? ==> Grows(s, r.value) && r.value.regTop == s.regTop
    decreases Size(e), 4
  {
    if e in c.known then ConstantExpr(s, c.known[e], target)
    else
      match e
      case Group(x) => ExprCode(c, s, x, target, temp)
      case Literal(k) => LiteralExpr(s, k, target)
      case Local(l) =>
        if l !in c.locals then Err(UnresolvedLocal)
        else if !c.optimize || target != c.locals[l] then Ok(EmitABC(s, MOVE, target, c.locals[l], 0))
        else Ok(s)
      case Upvalue(u) => Ok(EmitABC(s, GETUPVAL, target, u, 0))
      case Global(n) =>
        var (s1, id) :- AddConstant(s, CString(n));
        Ok(EmitAux(EmitABC(s1, GETGLOBAL, target, 0, 0), id, false))
      case Unary(op, x) =>
        var (s1, r) :- AutoCode(c, s, x);
        Ok(EmitABC(s1, UnaryOpcode(op), target, r, 0).(regTop := s.regTop))
      case Binary(Arith(_), _, _) => ArithCode(c, s, e, target)
      case Binary(Concat, _, _) =>
        ConcatOperandsSize(e);
        var args := ConcatOperands(e);
        var s1 :- AllocReg(s, |args|);
        var s2 :- ListCode(c, s1, args, s.regTop);
        Ok(EmitABC(s2, CONCAT, target, s.regTop, s.regTop + |args| - 1).(regTop := s.regTop))
      case Binary(Compare(_), _, _) =>
        var (s1, site) :- CompareJump(c, s, e, false);
        var s2 := EmitABC(s1, LOADB, target, 0, 1);
        var s3 := EmitABC(s2, LOADB, target, 1, 0);
        PatchJump(s3, site, |s2.insns|)
      case Binary(_, _, _) => AndOrCode(c, s, e, target, temp)
      case IfElse(_, _, _) => IfElseCode(c, s, e, target, temp)
      case IndexName(x, k) =>
        var (s1, r) :- AutoCode(c, s, x);
        var (s2, id) :- AddConstant(s1, CString(k));
        Ok(EmitAux(EmitABC(s2, GETTABLEKS, target, r, 0), id, false).(regTop := s.regTop))
      case IndexExpr(_, _) => IndexCode(c, s, e, target)
  }

  /** The register that holds the value of `e`: that of a local, or a fresh one, which stays
      allocated for the caller. */
  function AutoCode(c: Context, s: Builder, e: Expr): (r: Outcome<(Builder, nat)>)
    ensures r.Ok? ==> Grows(s, r.value.0) && s.regTop <= r.value.0.regTop
    decreases Size(e), 5, 0
  {
    match LocalReg(c, e)
    case Some(r) => Ok((s, r))
    case None =>
      var s1 :- AllocReg(s, 1);
      var s2 :- ExprCode(c, s1, e, s.regTop, true);
      Ok((s2, s.regTop))
  }

  /** Evaluates a list into consecutive registers that start at `base`. */
  function ListCode(c: Context, s: Builder, es: seq<Expr>, base: nat): (r: Outcome<Builder>)
    ensures r.Ok? ==> Grows(s, r.value) && r.value.regTop == s.regTop
    decreases ListSize(es), 5, |es|
  {
    if es == [] then Ok(s)
    else
      var s1 :- ExprCode(c, s, es[0], base, true);
      ListCode(c, s1, es[1..], base + 1)
  }

  function ArithCode(c: Context, s: Builder, e: Expr, target: nat): (r: Outcome<Builder>)
    requires e.Binary? && e.bop.Arith?
    ensures r.Ok? ==> Grows(s, r.value) && r.value.regTop == s.regTop
    decreases Size(e), 2
  {
    var op := e.bop.arith;
    var (s1, rc) :- ConstantNumber(c, s, e.right);
    if rc.Some? && rc.value <= 255 then
      var (s2, rl) :- AutoCode(c, s1, e.left);
      Ok(EmitABC(s2, ARITHK(op), target, rl, rc.value).(regTop := s.regTop))
    else if op == Sub || op == Div then
      var (s2, lc) :- ConstantNumber(c, s1, e.left);
      if lc.Some? && lc.value <= 255 then
        var (s3, rr) :- AutoCode(c, s2, e.right);
        Ok(EmitABC(s3, ARITHRK(op), target, lc.value, rr).(regTop := s.regTop))
      else ArithRegs(c, s2, e, target, s.regTop)
    else ArithRegs(c, s1, e, target, s.regTop)
  }

  function ArithRegs(c: Context, s: Builder, e: Expr, target: nat, oldTop: FrameSize): (r: Outcome<Builder>)
    requires e.Binary? && e.bop.Arith?
    ensures r.Ok? ==> Grows(s, r.value) && r.value.regTop == oldTop
    decreases Size(e), 1
  {
    var (s1, rl) :- AutoCode(c, s, e.left);
    var (s2, rr) :- AutoCode(c, s1, e.right);
    Ok(EmitABC(s2, ARITH(e.bop.arith), target, rl, rr).(regTop := oldTop))
  }

  function IndexCode(c: Context, s: Builder, e: Expr, target: nat): (r: Outcome<Builder>)
    requires e.IndexExpr?
    ensures r.Ok? ==> Grows(s, r.value) && r.value.regTop == s.regTop
    decreases Size(e), 2
  {
    if SmallIndex(c, e.index).Some? then
      var (s1, rt) :- AutoCode(c, s, e.table);
      Ok(EmitABC(s1, GETTABLEN, target, rt, SmallIndex(c, e.index).value).(regTop := s.regTop))
    else if e.index in c.known && c.known[e.index].CString? then
      var (s1, id) :- AddConstant(s, c.known[e.index]);
      var (s2, rt) :- AutoCode(c, s1, e.table);
      Ok(EmitAux(EmitABC(s2, GETTABLEKS, target, rt, 0), id, false).(regTop := s.regTop))
    else
      var (s1, rt) :- AutoCode(c, s, e.table);
      var (s2, ri) :- AutoCode(c, s1, e.index);
      Ok(EmitABC(s2, GETTABLE, target, rt, ri).(regTop := s.regTop))
  }

  /** A comparison, as a jump that is taken when its outcome differs from `negate`. */
  function CompareJump(c: Context, s: Builder, e: Expr, negate: bool): (r: Outcome<(Builder, nat)>)
    requires e.Binary? && e.bop.Compare?
    ensures r.Ok? ==> Grows(s, r.value.0) && r.value.0.regTop == s.regTop
    ensures r.Ok? ==> |s.insns| <= r.value.1 < |r.value.0.insns|
    decreases Size(e), 2
  {
    var isEq := e.bop.compare == Eq || e.bop.compare == Ne;
    if isEq && e.right !in c.known && e.left in c.known then
      CompareOperands(c, s, e.bop.compare, e.right, e.left, negate)
    else
      CompareOperands(c, s, e.bop.compare, e.left, e.right, negate)
  }

  function CompareOperands(c: Context, s: Builder, op: CompareOp, left: Expr, right: Expr, negate: bool)
    : (r: Outcome<(Builder, nat)>)
    ensures r.Ok? ==> Grows(s, r.value.0) && r.value.0.regTop == s.regTop
    ensures r.Ok? ==> |s.insns| <= r.value.1 < |r.value.0.insns|
    decreases 1 + Size(left) + Size(right), 1
  {
    var (s1, rl) :- AutoCode(c, s, left);
    if (op == Eq || op == Ne) && right in c.known && !c.known[right].CVector? then
      var s2 :- CompareConstant(s1, rl, c.known[right], (op == Eq) == negate);
      Ok((s2.(regTop := s.regTop), |s1.insns|))
    else
      var (s2, rr) :- AutoCode(c, s1, right);
      Ok((CompareRegs(s2, op, negate, rl, rr).(regTop := s.regTop), |s2.insns|))
  }

  function CompareConstant(s: Builder, reg: nat, k: Const, flip: bool): (r: Outcome<Builder>)
    requires !k.CVector?
    ensures r.Ok? ==> Grows(s, r.value) && r.value.regTop == s.regTop && |r.value.insns| == |s.insns| + 2
  {
    if k.CNil? then Ok(EmitAux(EmitAD(s, JUMPXEQKNIL, reg, 0), 0, flip))
    else if k.CBool? then Ok(EmitAux(EmitAD(s, JUMPXEQKB, reg, 0), if k.b then 1 else 0, flip))
    else
      var (s1, id) :- AddConstant(s, k);
      Ok(EmitAux(EmitAD(s1, if k.CNumber? then JUMPXEQKN else JUMPXEQKS, reg, 0), id, flip))
  }

  function CompareRegs(s: Builder, op: CompareOp, negate: bool, rl: nat, rr: nat): (r: Builder)
    ensures Grows(s, r) && |r.insns| == |s.insns| + 2
  {
    if op == Gt || op == Ge then EmitAux(EmitAD(s, CompareOpcode(op, negate), rr, 0), rl, false)
    else EmitAux(EmitAD(s, CompareOpcode(op, negate), rl, 0), rr, false)
  }

  /** Jumps when the truth of `e` equals `onlyTruth`, with its value in `target` if there is one,
      and falls through otherwise. */
  function CondCode(c: Context, s: Builder, e: Expr, target: Option<nat>, onlyTruth: bool)
    : (r: Outcome<(Builder, Labels)>)
    ensures r.Ok? ==> Grows(s, r.value.0) && r.value.0.regTop == s.regTop
    ensures r.Ok? ==> Within(r.value.1, |s.insns|, |r.value.0.insns|)
    decreases Size(e), 6
  {
    if e in c.known then
      if Truthful(c.known[e]) == onlyTruth then
        var s1 :- if target.Some? then ExprCode(c, s, e, target.value, true) else Ok(s);
        Ok((EmitAD(s1, JUMP, 0, 0), [|s1.insns|]))
      else Ok((s, []))
    else if e.Binary? && (e.bop.And? || e.bop.Or?) then
      CondAndOr(c, s, e, target, onlyTruth)
    else if e.Binary? && e.bop.Compare? then
      var s1 := if target.Some? then EmitABC(s, LOADB, target.value, if onlyTruth then 1 else 0, 0) else s;
      var (s2, site) :- CompareJump(c, s1, e, !onlyTruth);
      Ok((s2, [site]))
    else if target.None? && e.Unary? && e.uop.Not? then
      CondCode(c, s, e.operand, target, !onlyTruth)
    else if e.Group? then
      CondCode(c, s, e.inner, target, onlyTruth)
    else
      CondValue(c, s, e, target, onlyTruth)
  }

  /** A condition whose side jumps decide it: when the left side alone can fail the condition it
      is skipped over, when it alone can meet the condition it jumps out. */
  function CondAndOr(c: Context, s: Builder, e: Expr, target: Option<nat>, onlyTruth: bool)
    : (r: Outcome<(Builder, Labels)>)
    requires e.Binary? && (e.bop.And? || e.bop.Or?)
    ensures r.Ok? ==> Grows(s, r.value.0) && r.value.0.regTop == s.regTop
    ensures r.Ok? ==> Within(r.value.1, |s.insns|, |r.value.0.insns|)
    decreases Size(e), 5
  {
    if onlyTruth == e.bop.And? then
      var (s1, elseJump) :- CondCode(c, s, e.left, None, !onlyTruth);
      var (s2, skip) :- CondCode(c, s1, e.right, target, onlyTruth);
      var s3 :- PatchJumps(s2, elseJump, |s2.insns|);
      Ok((s3, skip))
    else
      var (s1, skip1) :- CondCode(c, s, e.left, target, onlyTruth);
      var (s2, skip2) :- CondCode(c, s1, e.right, target, onlyTruth);
      Ok((s2, skip1 + skip2))
  }

  /** A condition that is computed and then tested. */
  function CondValue(c: Context, s: Builder, e: Expr, target: Option<nat>, onlyTruth: bool)
    : (r: Outcome<(Builder, Labels)>)
    ensures r.Ok? ==> Grows(s, r.value.0) && r.value.0.regTop == s.regTop
    ensures r.Ok? ==> Within(r.value.1, |s.insns|, |r.value.0.insns|)
    decreases Size(e), 5, 1
  {
    var jump := if onlyTruth then JUMPIF else JUMPIFNOT;
    if target.Some? then
      var s1 :- ExprCode(c, s, e, target.value, true);
      Ok((EmitAD(s1, jump, target.value, 0), [|s1.insns|]))
    else
      var (s1, r) :- AutoCode(c, s, e);
      Ok((EmitAD(s1, jump, r, 0).(regTop := s.regTop), [|s1.insns|]))
  }

  function AndOrCode(c: Context, s: Builder, e: Expr, target: nat, temp: bool): (r: Outcome<Builder>)
    requires e.Binary? && (e.bop.And? || e.bop.Or?)
    ensures r.Ok? ==> Grows(s, r.value) && r.value.regTop == s.regTop
    decreases Size(e), 3
  {
    var and := e.bop.And?;
    if e.left in c.known then
      ExprCode(c, s, if and == Truthful(c.known[e.left]) then e.right else e.left, target, temp)
    else if !IsConditionFast(c, e.left) && LocalReg(c, e.right).Some? then
      var (s1, lr) :- AutoCode(c, s, e.left);
      Ok(EmitABC(s1, if and then ANDR else ORR, target, lr, LocalReg(c, e.right).value).(regTop := s.regTop))
    else
      var (s1, id) :- if IsConditionFast(c, e.left) then Ok((s, None)) else ConstantIndex(c, s, e.right);
      if id.Some? && id.value <= 255 then
        var (s2, lr) :- AutoCode(c, s1, e.left);
        Ok(EmitABC(s2, if and then ANDK else ORK, target, lr, id.value).(regTop := s.regTop))
      else if temp then AndOrJumps(c, s1, e, target)
      else
        var s2 :- AllocReg(s1, 1);
        var s3 :- AndOrJumps(c, s2, e, s1.regTop);
        Ok((if target != s1.regTop then EmitABC(s3, MOVE, target, s1.regTop, 0) else s3).(regTop := s.regTop))
  }

  /** Evaluates both sides into `reg`, with a jump over the right one. */
  function AndOrJumps(c: Context, s: Builder, e: Expr, reg: nat): (r: Outcome<Builder>)
    requires e.Binary? && (e.bop.And? || e.bop.Or?)
    ensures r.Ok? ==> Grows(s, r.value) && r.value.regTop == s.regTop
    decreases Size(e), 2
  {
    var (s1, skip) :- CondCode(c, s, e.left, Some(reg), e.bop.Or?);
    var s2 :- ExprCode(c, s1, e.right, reg, true);
    PatchJumps(s2, skip, |s2.insns|)
  }

  function IfElseAndOr(c: Context, s: Builder, and: bool, creg: nat, other: Expr, target: nat): (r: Outcome<Builder>)
    ensures r.Ok? ==> Grows(s, r.value) && r.value.regTop == s.regTop
    decreases Size(other), 6
  {
    var (s1, id) :- ConstantIndex(c, s, other);
    if id.Some? && id.value <= 255 then
      Ok(EmitABC(s1, if and then ANDK else ORK, target, creg, id.value))
    else
      var (s2, oreg) :- AutoCode(c, s1, other);
      Ok(EmitABC(s2, if and then ANDR else ORR, target, creg, oreg).(regTop := s.regTop))
  }

  function IfElseCode(c: Context, s: Builder, e: Expr, target: nat, temp: bool): (r: Outcome<Builder>)
    requires e.IfElse?
    ensures r.Ok? ==> Grows(s, r.value) && r.value.regTop == s.regTop
    decreases Size(e), 3
  {
    if e.cond in c.known then
      ExprCode(c, s, if Truthful(c.known[e.cond]) then e.thenExpr else e.elseExpr, target, temp)
    else
      var creg := LocalReg(c, e.cond);
      if creg.Some? && creg == LocalReg(c, e.thenExpr) && (LocalReg(c, e.elseExpr).Some? || e.elseExpr in c.known) then
        IfElseAndOr(c, s, false, creg.value, e.elseExpr, target)
      else if creg.Some? && creg == LocalReg(c, e.elseExpr) && (LocalReg(c, e.thenExpr).Some? || e.thenExpr in c.known) then
        IfElseAndOr(c, s, true, creg.value, e.thenExpr, target)
      else
        var (s1, elseJump) :- CondCode(c, s, e.cond, None, false);
        var s2 :- ExprCode(c, s1, e.thenExpr, target, temp);
        var s3 := EmitAD(s2, JUMP, 0, 0);
        var s4 :- ExprCode(c, s3, e.elseExpr, target, temp);
        var s5 :- PatchJumps(s4, elseJump, |s3.insns|);
        PatchJump(s5, |s2.insns|, |s4.insns|)
  }
}
