/** The expression parser: a loop over operators that calls itself with the limits for their operands. */
module ExprParser {
  import opened Results
  import opened ExprGrammar
  import G = ExprGrammar

  /** Reads expressions off a stream of tokens. */
  class Parser {
    const tokens: seq<Token>
    var pos: nat
    var recursionCounter: nat

    constructor (tokens: seq<Token>)
      ensures this.tokens == tokens && pos == 0 && recursionCounter == 0
    {
      this.tokens, pos, recursionCounter := tokens, 0, 0;
    }

    function Current(): Token
      reads this
    {
      if pos < |tokens| then tokens[pos] else Other
    }

    method NextLexeme()
      requires pos < |tokens|
      modifies this`pos
      ensures pos == old(pos) + 1
    {
      pos := pos + 1;
    }

    /** A result leaves the parser right behind it; without one there is a syntax error. */
    method ParseExpr(limit: nat) returns (expr: Option<Tree>)
      requires pos <= |tokens|
      modifies this
      ensures G.ParseExpr(tokens, old(pos), limit) == if expr.Some? then Some((expr.value, pos)) else None
      ensures old(pos) <= pos <= |tokens| && (expr.Some? ==> old(pos) < pos)
      ensures expr.Some? ==> recursionCounter == old(recursionCounter)
      decreases |tokens| - pos, 3
    {
      var oldRecursionCount := recursionCounter;
      ghost var start := pos;
      recursionCounter := recursionCounter + 1;
      var uop := ParseUnaryOp(Current());
      if uop.Some? {
        NextLexeme();
        var subexpr := ParseExpr(UNARY_PRIORITY);
        if subexpr.None? {
          return None;
        }
        expr := Some(Unary(uop.value, subexpr.value));
      } else {
        expr := ParseAssertionExpr();
        if expr.None? {
          return None;
        }
      }
      assert ParseHead(tokens, start) == Some((expr.value, pos));
      var op := ParseBinaryOp(Current());
      while op.Some? && LeftPriority(op.value) > limit
        invariant expr.Some? && start < pos <= |tokens| && op == ParseBinaryOp(Current())
        invariant G.ParseExpr(tokens, start, limit) == ParseOperators(tokens, expr.value, pos, limit)
        decreases |tokens| - pos
      {
        NextLexeme();
        var next := ParseExpr(RightPriority(op.value));
        if next.None? {
          return None;
        }
        expr := Some(Binary(op.value, expr.value, next.value));
        op := ParseBinaryOp(Current());
        recursionCounter := recursionCounter + 1;
      }
      recursionCounter := oldRecursionCount;
    }

    /** What has no operator in front, and perhaps a type behind it. */
    method ParseAssertionExpr() returns (expr: Option<Tree>)
      requires pos <= |tokens|
      modifies this
      ensures ParseAssertion(tokens, old(pos)) == if expr.Some? then Some((expr.value, pos)) else None
      ensures old(pos) <= pos <= |tokens| && (expr.Some? ==> old(pos) < pos)
      ensures expr.Some? ==> recursionCounter == old(recursionCounter)
      decreases |tokens| - pos, 2
    {
      expr := ParseSimpleExpr();
      if expr.Some? && Current().TDoubleColon? {
        NextLexeme();
        if !Current().TypeName? {
          return None;
        }
        expr := Some(Assertion(expr.value, Current().n));
        NextLexeme();
      }
    }

    method ParseSimpleExpr() returns (expr: Option<Tree>)
      requires pos <= |tokens|
      modifies this
      ensures ParseSimple(tokens, old(pos)) == if expr.Some? then Some((expr.value, pos)) else None
      ensures old(pos) <= pos <= |tokens| && (expr.Some? ==> old(pos) < pos)
      ensures expr.Some? ==> recursionCounter == old(recursionCounter)
      decreases |tokens| - pos, 1
    {
      if Current().Atom? {
        expr := Some(Leaf(Current().n));
        NextLexeme();
      } else if Current().Open? {
        NextLexeme();
        var inner := ParseExpr(0);
        if inner.None? || !Current().Close? {
          return None;
        }
        NextLexeme();
        expr := Some(Group(inner.value));
      } else if Current().TIf? {
        expr := ParseIfElseExpr();
      } else {
        expr := None;
      }
    }

    /** At `if` or `elseif`, which is skipped. */
    method ParseIfElseExpr() returns (expr: Option<Tree>)
      requires pos < |tokens|
      modifies this
      ensures ParseChoice(tokens, old(pos) + 1) == if expr.Some? then Some((expr.value, pos)) else None
      ensures old(pos) < pos <= |tokens|
      ensures expr.Some? ==> recursionCounter == old(recursionCounter)
      decreases |tokens| - pos, 0
    {
      NextLexeme();
      var condition := ParseExpr(0);
      if condition.None? || !Current().TThen? {
        return None;
      }
      NextLexeme();
      var trueExpr := ParseExpr(0);
      if trueExpr.None? {
        return None;
      }
      var falseExpr, chained := None, Current().TElseif?;
      if chained {
        var oldRecursionCount := recursionCounter;
        recursionCounter := recursionCounter + 1;
        falseExpr := ParseIfElseExpr();
        recursionCounter := oldRecursionCount;
      } else {
        if !Current().TElse? {
          return None;
        }
        NextLexeme();
        falseExpr := ParseExpr(0);
      }
      if falseExpr.None? {
        return None;
      }
      expr := Some(IfElse(condition.value, trueExpr.value, falseExpr.value, chained));
    }
  }
}
