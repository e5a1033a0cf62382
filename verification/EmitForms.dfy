/** The short forms: what is emitted where an operand is a local or a constant, and how constants are shared. */
module EmitForms {
  import opened Results
  import opened LuaSource
  import opened RegisterVm
  import opened EmitSpec
  import opened AssignSpec

  /** Registers, constants and jump distances are refused exactly from these numbers on. */
  lemma LimitsAre(s: Builder, count: nat, k: Const, site: nat, target: nat)
    ensures AllocReg(s, count).Ok? <==> s.regTop + count <= 255
    ensures AddConstant(s, k).Ok? <==> k in s.constants || |s.constants| < 0x80_0000
    ensures site < |s.insns| ==> (PatchJump(s, site, target).Ok? <==> -0x80_0000 < target - site - 1 < 0x80_0000)
  {
  }

  ghost predicate Distinct(ks: seq<Const>) {
    forall i, j :: 0 <= i < j < |ks| ==> ks[i] != ks[j]
  }

  /** A constant in the table is used again, and none occurs twice. */
  lemma ConstantsAreShared(s: Builder, k: Const)
    ensures k in s.constants ==> AddConstant(s, k).Ok? && AddConstant(s, k).value.0 == s
    ensures Distinct(s.constants) && AddConstant(s, k).Ok? ==> Distinct(AddConstant(s, k).value.0.constants)
  {
  }

  /** The constant is in the table at an index of one byte. */
  predicate ByteConstant(s: Builder, k: Const, id: nat) {
    id <= 255 && AddConstant(s, k) == Ok((s, id))
  }

  /** What the fragment appends: nothing but these words. */
  predicate Appends(s: Builder, r: Outcome<Builder>, words: seq<Insn>) {
    r == Ok(s.(insns := s.insns + words))
  }

  /** A local is no instruction and no register as an operand, and one move at most as a value. */
  lemma LocalForms(c: Context, s: Builder, e: Expr, l: LocalId, target: nat)
    requires e == Local(l) && l in c.locals && e !in c.known
    ensures AutoCode(c, s, e) == Ok((s, c.locals[l]))
    ensures Appends(s, ExprCode(c, s, e, target, false),
                    if c.optimize && target == c.locals[l] then [] else [ABC(MOVE, target, c.locals[l], 0)])
  {
    assert s.insns + [] == s.insns;
  }

  /** Arithmetic on two locals, and on a local and a constant on either side, is one instruction. */
  lemma ArithForms(c: Context, s: Builder, op: ArithOp, e: Expr, target: nat, id: nat)
    requires e.Binary? && e.bop == Arith(op)
    ensures
      InPlace(c, e.left) && InPlace(c, e.right) ==>
        Appends(s, ArithCode(c, s, e, target), [ABC(ARITH(op), target, Place(c, e.left), Place(c, e.right))])
    ensures
      InPlace(c, e.left) && IsNumber(c, e.right) && ByteConstant(s, c.known[e.right], id) ==>
        Appends(s, ArithCode(c, s, e, target), [ABC(ARITHK(op), target, Place(c, e.left), id)])
    ensures
      (op == Sub || op == Div) && InPlace(c, e.right) && IsNumber(c, e.left) && ByteConstant(s, c.known[e.left], id) ==>
        Appends(s, ArithCode(c, s, e, target), [ABC(ARITHRK(op), target, id, Place(c, e.right))])
  {
    if InPlace(c, e.left) && InPlace(c, e.right) {
      assert ConstantNumber(c, s, e.left) == ConstantNumber(c, s, e.right) == Ok((s, None));
      RegisterForms(c, s, op, e, target);
    }
  }

  lemma RegisterForms(c: Context, s: Builder, op: ArithOp, e: Expr, target: nat)
    requires e.Binary? && e.bop == Arith(op) && InPlace(c, e.left) && InPlace(c, e.right)
    ensures Appends(s, ArithRegs(c, s, e, target, s.regTop), [ABC(ARITH(op), target, Place(c, e.left), Place(c, e.right))])
  {
    assert AutoCode(c, s, e.left) == Ok((s, Place(c, e.left))) && AutoCode(c, s, e.right) == Ok((s, Place(c, e.right)));
  }

  /** The expression is a local whose value is not known. */
  predicate InPlace(c: Context, e: Expr) {
    LocalReg(c, e).Some? && e !in c.known
  }

  function Place(c: Context, e: Expr): nat
    requires InPlace(c, e)
  {
    LocalReg(c, e).value
  }

  predicate IsNumber(c: Context, e: Expr) {
    e in c.known && c.known[e].CNumber?
  }

  /** Testing a local for equality with a constant on either side is one jump that has the constant in its second word. */
  lemma EqualForms(c: Context, s: Builder, e: Expr, x: Expr, k: Const, id: nat, negate: bool)
    requires e.Binary? && (e.bop == Compare(Eq) || e.bop == Compare(Ne))
    requires InPlace(c, x) && (k.CNumber? || k.CString?) && AddConstant(s, k) == Ok((s, id))
    requires
      || (x == e.left && e.right in c.known && c.known[e.right] == k)
      || (x == e.right && e.left in c.known && c.known[e.left] == k)
    ensures
      var op := if k.CNumber? then JUMPXEQKN else JUMPXEQKS;
      var words := [AD(op, Place(c, x), 0), Aux(id, (e.bop == Compare(Eq)) == negate)];
      CompareJump(c, s, e, negate) == Ok((s.(insns := s.insns + words), |s.insns|))
  {
    ConstantTest(c, s, e.bop.compare, x, if x == e.left then e.right else e.left, k, id, negate);
  }

  lemma ConstantTest(c: Context, s: Builder, op: CompareOp, x: Expr, y: Expr, k: Const, id: nat, negate: bool)
    requires (op == Eq || op == Ne) && InPlace(c, x) && (k.CNumber? || k.CString?) && AddConstant(s, k) == Ok((s, id))
    requires y in c.known && c.known[y] == k
    ensures
      var words := [AD(if k.CNumber? then JUMPXEQKN else JUMPXEQKS, Place(c, x), 0), Aux(id, (op == Eq) == negate)];
      CompareOperands(c, s, op, x, y, negate) == Ok((s.(insns := s.insns + words), |s.insns|))
  {
    var first, second := AD(if k.CNumber? then JUMPXEQKN else JUMPXEQKS, Place(c, x), 0), Aux(id, (op == Eq) == negate);
    assert AutoCode(c, s, x) == Ok((s, Place(c, x)));
    assert s.insns + [first] + [second] == s.insns + [first, second];
    assert CompareConstant(s, Place(c, x), k, (op == Eq) == negate) == Ok(s.(insns := s.insns + [first, second]));
  }

  /** Nil, booleans and 16-bit integers need no constant; any other constant takes one word if its index has 15 bits. */
  lemma ConstantForms(s: Builder, k: Const, target: nat, id: nat)
    ensures Appends(s, ConstantExpr(s, CNil, target), [ABC(LOADNIL, target, 0, 0)])
    ensures Appends(s, ConstantExpr(s, CBool(true), target), [ABC(LOADB, target, 1, 0)])
    ensures Appends(s, ConstantExpr(s, CBool(false), target), [ABC(LOADB, target, 0, 0)])
    ensures
      k.CNumber? && k.n.Integral? && -0x8000 <= k.n.value < 0x8000 ==>
        Appends(s, ConstantExpr(s, k, target), [AD(LOADN, target, k.n.value)])
    ensures
      k.CString? && id < 0x8000 && AddConstant(s, k) == Ok((s, id)) ==>
        Appends(s, ConstantExpr(s, k, target), [AD(LOADK, target, id)])
  {
  }

  /** An element with a name, or with a number from 1 to 256, needs no register for its key. */
  lemma IndexForms(c: Context, s: Builder, e: Expr, target: nat, key: nat)
    requires e.IndexExpr? && InPlace(c, e.table) && e.index in c.known
    ensures
      1 <= key <= 256 && c.known[e.index] == CNumber(Integral(key)) ==>
        Appends(s, IndexCode(c, s, e, target), [ABC(GETTABLEN, target, Place(c, e.table), key - 1)])
    ensures
      c.known[e.index].CString? && AddConstant(s, c.known[e.index]) == Ok((s, key)) ==>
        Appends(s, IndexCode(c, s, e, target), [ABC(GETTABLEKS, target, Place(c, e.table), 0), Aux(key, false)])
  {
    assert s.insns + [ABC(GETTABLEKS, target, Place(c, e.table), 0)] + [Aux(key, false)]
        == s.insns + [ABC(GETTABLEKS, target, Place(c, e.table), 0), Aux(key, false)];
  }

  /** `and` and `or` of two locals, or of a local and a constant, are one instruction without a jump. */
  lemma AndOrForms(c: Context, s: Builder, e: Expr, target: nat, temp: bool, id: nat)
    requires e.Binary? && (e.bop.And? || e.bop.Or?) && InPlace(c, e.left) && !IsConditionFast(c, e.left)
    ensures
      InPlace(c, e.right) ==>
        Appends(s, AndOrCode(c, s, e, target, temp),
                [ABC(if e.bop.And? then ANDR else ORR, target, Place(c, e.left), Place(c, e.right))])
    ensures
      LocalReg(c, e.right).None? && e.right in c.known && ByteConstant(s, c.known[e.right], id) ==>
        Appends(s, AndOrCode(c, s, e, target, temp), [ABC(if e.bop.And? then ANDK else ORK, target, Place(c, e.left), id)])
  {
  }

  /** A condition that is known is one jump or nothing; a negation turns the jump; a local is tested where it is. */
  lemma CondForms(c: Context, s: Builder, e: Expr, onlyTruth: bool)
    ensures
      e in c.known ==>
        CondCode(c, s, e, None, onlyTruth) ==
        if Truthful(c.known[e]) == onlyTruth then Ok((s.(insns := s.insns + [AD(JUMP, 0, 0)]), [|s.insns|])) else Ok((s, []))
    ensures
      e !in c.known && e.Unary? && e.uop.Not? ==>
        CondCode(c, s, e, None, onlyTruth) == CondCode(c, s, e.operand, None, !onlyTruth)
    ensures
      e.Local? && InPlace(c, e) ==>
        CondCode(c, s, e, None, onlyTruth) ==
        Ok((s.(insns := s.insns + [AD(if onlyTruth then JUMPIF else JUMPIFNOT, Place(c, e), 0)]), [|s.insns|]))
  {
    if e.Local? && InPlace(c, e) {
      assert AutoCode(c, s, e) == Ok((s, Place(c, e)));
      assert CondCode(c, s, e, None, onlyTruth) == CondValue(c, s, e, None, onlyTruth);
    }
  }

  /** A choice between the tested local and another operand is one instruction without a jump. */
  lemma IfElseForms(c: Context, s: Builder, e: Expr, target: nat, temp: bool)
    requires e.IfElse? && InPlace(c, e.cond) && InPlace(c, e.thenExpr) && InPlace(c, e.elseExpr)
    ensures
      Place(c, e.thenExpr) == Place(c, e.cond) ==>
        Appends(s, IfElseCode(c, s, e, target, temp), [ABC(ORR, target, Place(c, e.cond), Place(c, e.elseExpr))])
    ensures
      Place(c, e.elseExpr) == Place(c, e.cond) && Place(c, e.thenExpr) != Place(c, e.cond) ==>
        Appends(s, IfElseCode(c, s, e, target, temp), [ABC(ANDR, target, Place(c, e.cond), Place(c, e.thenExpr))])
  {
    assert ConstantIndex(c, s, e.thenExpr) == ConstantIndex(c, s, e.elseExpr) == Ok((s, None));
    OtherForm(c, s, true, Place(c, e.cond), e.thenExpr, target);
    OtherForm(c, s, false, Place(c, e.cond), e.elseExpr, target);
  }

  lemma OtherForm(c: Context, s: Builder, and: bool, creg: nat, other: Expr, target: nat)
    requires InPlace(c, other)
    ensures Appends(s, IfElseAndOr(c, s, and, creg, other, target), [ABC(if and then ANDR else ORR, target, creg, Place(c, other))])
  {
    assert AutoCode(c, s, other) == Ok((s, Place(c, other)));
  }

  /** Nothing is emitted for surplus values that are variables or constants. */
  lemma {:induction false} SurplusForms(c: Context, s: Builder, es: seq<Expr>)
    requires forall e <- es :: e.Local? || e.Upvalue? || e.Global? || e in c.known
    ensures SidesCode(c, s, es) == Ok(s)
    decreases |es|
  {
    if es != [] {
      assert es[0] in es && forall e <- es[1..] :: e in es;
      SurplusForms(c, s, es[1..]);
    }
  }

  /** The value of a single local is computed in its register. */
  lemma AssignForm(c: Context, s: Builder, l: LocalId, value: Expr)
    requires l in c.locals
    ensures AssignCode(c, s, [Local(l)], [value]) == ExprCode(c, s, value, c.locals[l], false)
  {
    assert LValueCode(c, s, Local(l)) == Ok((s, LvLocal(c.locals[l])));
    var r := ExprCode(c, s, value, c.locals[l], false);
    assert r.Ok? ==> r.value.(regTop := s.regTop) == r.value;
  }
}
