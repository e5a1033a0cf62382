/**
 The grammar of operator expressions as the language describes it, one nonterminal for each level and no numbers: `or` binds
 least tightly, then `and`, the comparisons, `..`, which associates to the right, the additive and the multiplicative
 operators, the unary ones, and `^`, whose right operand may be unary again. The parser reads exactly this grammar.
 */
module LayeredGrammar {
  import opened Results
  import L = LuaSource
  import opened ExprGrammar

  datatype Nonterminal =
    | OrExpr | AndExpr | Comparison | Concatenation | Additive | Multiplicative | UnaryExpr | Power | Asserted | SimpleExpr

  /** Which tokens stand for which operators, level by level. */
  predicate Infix(n: Nonterminal, token: Token, op: L.BinaryOp) {
    match n
    case OrExpr => token == TOr && op == L.Or
    case AndExpr => token == TAnd && op == L.And
    case Comparison =>
      || (token == TLt && op == L.Compare(L.Lt)) || (token == TGt && op == L.Compare(L.Gt))
      || (token == TLe && op == L.Compare(L.Le)) || (token == TGe && op == L.Compare(L.Ge))
      || (token == TNe && op == L.Compare(L.Ne)) || (token == TEq && op == L.Compare(L.Eq))
    case Concatenation => token == TDot2 && op == L.Concat
    case Additive => (token == TPlus && op == L.Arith(L.Add)) || (token == TMinus && op == L.Arith(L.Sub))
    case Multiplicative =>
      || (token == TStar && op == L.Arith(L.Mul)) || (token == TSlash && op == L.Arith(L.Div))
      || (token == TFloorDiv && op == L.Arith(L.FloorDiv)) || (token == TPercent && op == L.Arith(L.Mod))
    case Power => token == TCaret && op == L.Arith(L.Pow)
    case _ => false
  }

  predicate Prefix(token: Token, op: L.UnaryOp) {
    (token == TNot && op == L.Not) || (token == TMinus && op == L.Minus) || (token == TLen && op == L.Len)
  }

  /** An if-else expression takes whatever follows it. */
  predicate EndsInIf(t: Tree) {
    match t
    case IfElse(_, _, _, _) => true
    case Unary(_, x) => EndsInIf(x)
    case Binary(_, _, r) => EndsInIf(r)
    case _ => false
  }

  function Rank(n: Nonterminal): nat {
    match n
    case OrExpr => 9
    case AndExpr => 8
    case Comparison => 7
    case Concatenation => 6
    case Additive => 5
    case Multiplicative => 4
    case UnaryExpr => 3
    case Power => 2
    case Asserted => 1
    case SimpleExpr => 0
  }

  /** The nonterminal derives the tree. */
  predicate Derives(n: Nonterminal, t: Tree)
    decreases t, Rank(n)
  {
    match n
    case OrExpr => (IsInfix(n, t) && Derives(OrExpr, t.left) && Derives(AndExpr, t.right)) || Derives(AndExpr, t)
    case AndExpr => (IsInfix(n, t) && Derives(AndExpr, t.left) && Derives(Comparison, t.right)) || Derives(Comparison, t)
    case Comparison => (IsInfix(n, t) && Derives(Comparison, t.left) && Derives(Concatenation, t.right)) || Derives(Concatenation, t)
    case Concatenation => (IsInfix(n, t) && Derives(Additive, t.left) && Derives(Concatenation, t.right)) || Derives(Additive, t)
    case Additive => (IsInfix(n, t) && Derives(Additive, t.left) && Derives(Multiplicative, t.right)) || Derives(Multiplicative, t)
    case Multiplicative =>
      (IsInfix(n, t) && Derives(Multiplicative, t.left) && Derives(UnaryExpr, t.right)) || Derives(UnaryExpr, t)
    case UnaryExpr => (t.Unary? && Prefix(UnaryToken(t.uop), t.uop) && Derives(UnaryExpr, t.operand)) || Derives(Power, t)
    case Power => (IsInfix(n, t) && Derives(Asserted, t.left) && Derives(UnaryExpr, t.right)) || Derives(Asserted, t)
    case Asserted =>
      || (t.Assertion? && Derives(SimpleExpr, t.asserted) && (t.asserted.IfElse? ==> Closed(t.asserted)))
      || Derives(SimpleExpr, t)
    case SimpleExpr =>
      match t
      case Leaf(_) => true
      case Group(x) => Derives(OrExpr, x)
      case IfElse(c, y, no, chained) => Derives(OrExpr, c) && Derives(OrExpr, y) && Derives(OrExpr, no) && (chained ==> no.IfElse?)
      case _ => false
  }

  /** An operator of this level, with a left operand that does not take it. */
  predicate IsInfix(n: Nonterminal, t: Tree) {
    t.Binary? && Infix(n, BinaryToken(t.bop), t.bop) && !EndsInIf(t.left)
  }

  // ----- the same trees as with numbers -----

  function LevelOf(op: L.BinaryOp): (n: Nonterminal)
    ensures Infix(n, BinaryToken(op), op) && forall m :: Infix(m, BinaryToken(op), op) ==> m == n
  {
    match op
    case Or => OrExpr
    case And => AndExpr
    case Compare(_) => Comparison
    case Concat => Concatenation
    case Arith(Add) => Additive
    case Arith(Sub) => Additive
    case Arith(Pow) => Power
    case Arith(_) => Multiplicative
  }

  /** What may stand where only operators above the limit may. */
  function Above(limit: nat): Nonterminal
    requires limit <= 9
  {
    if limit == 0 then OrExpr
    else if limit == 1 then AndExpr
    else if limit == 2 then Comparison
    else if limit <= 4 then Concatenation
    else if limit == 5 then Additive
    else if limit == 6 then Multiplicative
    else UnaryExpr
  }

  /** The nonterminal that has a rule for the tree. */
  function Own(t: Tree): Nonterminal {
    match t
    case Binary(op, _, _) => LevelOf(op)
    case Unary(_, _) => UnaryExpr
    case Assertion(_, _) => Asserted
    case _ => SimpleExpr
  }

  function Below(n: Nonterminal): (m: Nonterminal)
    requires n != SimpleExpr
    ensures Rank(m) + 1 == Rank(n)
  {
    match n
    case OrExpr => AndExpr
    case AndExpr => Comparison
    case Comparison => Concatenation
    case Concatenation => Additive
    case Additive => Multiplicative
    case Multiplicative => UnaryExpr
    case UnaryExpr => Power
    case Power => Asserted
    case Asserted => SimpleExpr
  }

  /** A tree is derived by its own rule only, from there on upwards. */
  lemma {:induction false} DerivesOwn(n: Nonterminal, t: Tree)
    ensures Derives(n, t) <==> Rank(Own(t)) <= Rank(n) && Derives(Own(t), t)
    decreases Rank(n)
  {
    if n != SimpleExpr {
      DerivesOwn(Below(n), t);
    }
  }

  /** The end of a text takes what follows exactly if it is an if-else expression; otherwise it is as tight as the limit. */
  lemma {:induction false} EndIsTight(t: Tree, limit: nat)
    requires WellFormed(t, limit)
    ensures if EndsInIf(t) then OpenEnd(t) == 0 else OpenEnd(t) >= if limit < 8 then limit else 8
    decreases t
  {
    match t
    case Unary(_, x) => EndIsTight(x, UNARY_PRIORITY);
    case Binary(op, _, r) => EndIsTight(r, RightPriority(op));
    case _ =>
  }

  /** What may stand to the left of an operator, from what may stand there for its level. */
  predicate FitsLeft(t: Tree, op: L.BinaryOp) {
    && !EndsInIf(t)
    && match op
       case Arith(Pow) => !t.Unary? && !t.Binary? && WellFormed(t, 10)
       case Concat => WellFormed(t, 5)
       case _ => WellFormed(t, LeftPriority(op) - 1)
  }

  lemma {:induction false} LeftOperand(t: Tree, op: L.BinaryOp, limit: nat)
    requires limit < LeftPriority(op)
    ensures WellFormed(t, limit) && LeftPriority(op) <= OpenEnd(t) <==> FitsLeft(t, op)
    decreases t
  {
    match t
    case Unary(_, x) =>
      if WellFormed(x, UNARY_PRIORITY) {
        EndIsTight(x, UNARY_PRIORITY);
      }
    case Binary(inner, l, r) =>
      if LeftPriority(inner) > limit {
        LeftOperand(l, inner, limit);
      }
      if LeftPriority(inner) >= LeftPriority(op) {
        LeftOperand(l, inner, LeftPriority(op) - 1);
      }
      if LeftPriority(inner) > LeftPriority(op) {
        LeftOperand(l, inner, LeftPriority(op));
      }
      if WellFormed(r, RightPriority(inner)) {
        EndIsTight(r, RightPriority(inner));
      }
    case _ =>
  }

  lemma {:induction false} LeftIsDerived(t: Tree, op: L.BinaryOp)
    requires forall limit: nat :: limit <= 9 ==> (WellFormed(t, limit) <==> Derives(Above(limit), t))
    ensures FitsLeft(t, op) <==>
            !EndsInIf(t) &&
            Derives(match op
                    case Arith(Pow) => Asserted
                    case Concat => Additive
                    case _ => LevelOf(op), t)
  {
    match op
    case Arith(Pow) =>
      DerivesOwn(Asserted, t);
      DerivesOwn(UnaryExpr, t);
      assert WellFormed(t, 9) <==> Derives(Above(9), t);
    case Concat => assert WellFormed(t, 5) <==> Derives(Above(5), t);
    case _ =>
      assert Above(LeftPriority(op) - 1) == LevelOf(op);
      assert WellFormed(t, LeftPriority(op) - 1) <==> Derives(Above(LeftPriority(op) - 1), t);
  }

  /** The trees without superfluous or missing parentheses are those that the grammar derives. */
  lemma {:induction false} SameTrees(t: Tree, limit: nat)
    requires limit <= 9
    ensures WellFormed(t, limit) <==> Derives(Above(limit), t)
    decreases t
  {
    DerivesOwn(Above(limit), t);
    if Own(t) != SimpleExpr {
      DerivesOwn(Below(Own(t)), t);
    }
    match t
    case Leaf(_) =>
    case Group(x) => SameTrees(x, 0);
    case Unary(_, x) => SameTrees(x, UNARY_PRIORITY);
    case Binary(_, _, _) => SameBinary(t, limit);
    case IfElse(c, y, n, _) =>
      SameTrees(c, 0);
      SameTrees(y, 0);
      SameTrees(n, 0);
    case Assertion(x, _) =>
      SameTrees(x, 0);
      DerivesOwn(OrExpr, x);
  }

  lemma {:induction false} SameBinary(t: Tree, limit: nat)
    requires t.Binary? && limit <= 9
    ensures WellFormed(t, limit) <==> Rank(LevelOf(t.bop)) <= Rank(Above(limit)) && Derives(LevelOf(t.bop), t)
    decreases t, 0
  {
    var op, l, r := t.bop, t.left, t.right;
    SameTrees(r, RightPriority(op));
    forall k: nat | k <= 9
      ensures WellFormed(l, k) <==> Derives(Above(k), l)
    {
      SameTrees(l, k);
    }
    LeftIsDerived(l, op);
    DerivesOwn(Below(LevelOf(op)), t);
    if limit < LeftPriority(op) {
      LeftOperand(l, op, limit);
    }
    assert limit < LeftPriority(op) <==> Rank(LevelOf(op)) <= Rank(Above(limit));
  }

  // ----- the parser reads this grammar -----

  predicate NoInfixAt(ts: seq<Token>, pos: nat) {
    pos < |ts| ==> ts[pos] !in {TOr, TAnd, TLt, TGt, TLe, TGe, TNe, TEq, TDot2, TPlus, TMinus, TStar, TSlash, TFloorDiv, TPercent, TCaret}
  }

  /**
   Parsing returns a tree, ending at `next`, exactly if the grammar derives it, its text is what was read, and neither an
   operator nor a type assertion that belongs to it follows.
   */
  lemma ParsesTheGrammar(ts: seq<Token>, t: Tree, next: nat)
    ensures ParseExpr(ts, 0, 0) == Some((t, next)) <==>
            && next <= |ts| && ts[..next] == Print(t) && Derives(OrExpr, t)
            && NoInfixAt(ts, next) && (Sealed(t) || NoAssertionAt(ts, next))
  {
    ParseInvertsPrint(ts, 0, 0, t, next);
    SameTrees(t, 0);
    if next <= |ts| {
      assert ts[0..next] == ts[..next];
    }
  }

  /** A whole text is read exactly as the grammar says. */
  lemma WholeTexts(ts: seq<Token>, t: Tree)
    ensures ParseExpr(ts, 0, 0) == Some((t, |ts|)) <==> ts == Print(t) && Derives(OrExpr, t)
  {
    ParsesTheGrammar(ts, t, |ts|);
    assert ts[..|ts|] == ts;
  }
}
