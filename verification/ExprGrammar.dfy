/** Operator expressions: how they are written, and when their text needs no more parentheses. */
module ExprGrammar {
  import opened Results
  import L = LuaSource

  /** `Atom` stands for anything without operators of its own: names, constants, calls, tables, functions. A type is a token. */
  datatype Token =
    | Atom(n: nat) | TypeName(n: nat) | Open | Close | TIf | TThen | TElse | TElseif | TDoubleColon | Other
    | TNot | TLen | TMinus
    | TPlus | TStar | TSlash | TFloorDiv | TPercent | TCaret | TDot2
    | TNe | TEq | TLt | TLe | TGt | TGe | TAnd | TOr

  datatype Tree =
    | Leaf(n: nat)
    | Group(inner: Tree)
    | Unary(uop: L.UnaryOp, operand: Tree)
    | Binary(bop: L.BinaryOp, left: Tree, right: Tree)
    | IfElse(cond: Tree, yes: Tree, no: Tree, chained: bool)
    | Assertion(asserted: Tree, annotation: nat)

  function ParseUnaryOp(t: Token): Option<L.UnaryOp> {
    match t
    case TNot => Some(L.Not)
    case TMinus => Some(L.Minus)
    case TLen => Some(L.Len)
    case _ => None
  }

  function ParseBinaryOp(t: Token): Option<L.BinaryOp> {
    match t
    case TPlus => Some(L.Arith(L.Add))
    case TMinus => Some(L.Arith(L.Sub))
    case TStar => Some(L.Arith(L.Mul))
    case TSlash => Some(L.Arith(L.Div))
    case TFloorDiv => Some(L.Arith(L.FloorDiv))
    case TPercent => Some(L.Arith(L.Mod))
    case TCaret => Some(L.Arith(L.Pow))
    case TDot2 => Some(L.Concat)
    case TNe => Some(L.Compare(L.Ne))
    case TEq => Some(L.Compare(L.Eq))
    case TLt => Some(L.Compare(L.Lt))
    case TLe => Some(L.Compare(L.Le))
    case TGt => Some(L.Compare(L.Gt))
    case TGe => Some(L.Compare(L.Ge))
    case TAnd => Some(L.And)
    case TOr => Some(L.Or)
    case _ => None
  }

  function UnaryToken(op: L.UnaryOp): Token {
    match op
    case Not => TNot
    case Minus => TMinus
    case Len => TLen
  }

  function BinaryToken(op: L.BinaryOp): Token {
    match op
    case Arith(Add) => TPlus
    case Arith(Sub) => TMinus
    case Arith(Mul) => TStar
    case Arith(Div) => TSlash
    case Arith(FloorDiv) => TFloorDiv
    case Arith(Mod) => TPercent
    case Arith(Pow) => TCaret
    case Concat => TDot2
    case Compare(Ne) => TNe
    case Compare(Eq) => TEq
    case Compare(Lt) => TLt
    case Compare(Le) => TLe
    case Compare(Gt) => TGt
    case Compare(Ge) => TGe
    case And => TAnd
    case Or => TOr
  }

  lemma OperatorTokens(u: L.UnaryOp, b: L.BinaryOp, t: Token)
    ensures ParseUnaryOp(t) == Some(u) <==> t == UnaryToken(u)
    ensures ParseBinaryOp(t) == Some(b) <==> t == BinaryToken(b)
  {
  }

  const UNARY_PRIORITY := 8

  /** How tightly an operator binds what is to its left. */
  function LeftPriority(op: L.BinaryOp): nat {
    match op
    case Arith(Add) => 6
    case Arith(Sub) => 6
    case Arith(Pow) => 10
    case Arith(_) => 7
    case Concat => 5
    case Compare(_) => 3
    case And => 2
    case Or => 1
  }

  /** The limit for the operand to its right; one less makes it right associative. */
  function RightPriority(op: L.BinaryOp): nat {
    match op
    case Arith(Pow) => 9
    case Concat => 4
    case _ => LeftPriority(op)
  }

  function Print(t: Tree): (r: seq<Token>)
    ensures |r| > 0
    decreases t, 1
  {
    match t
    case Leaf(n) => [Atom(n)]
    case Group(x) => [Open] + Print(x) + [Close]
    case Unary(op, x) => [UnaryToken(op)] + Print(x)
    case Binary(op, l, r) => Print(l) + [BinaryToken(op)] + Print(r)
    case IfElse(_, _, _, _) => [TIf] + Choice(t)
    case Assertion(x, n) => Print(x) + [TDoubleColon, TypeName(n)]
  }

  /** What comes behind `if`, or behind `elseif`. */
  function Choice(t: Tree): (r: seq<Token>)
    requires t.IfElse?
    ensures |r| > 0
    decreases t, 0
  {
    (Print(t.cond) + [TThen]) + (Print(t.yes) + Otherwise(t))
  }

  function Otherwise(t: Tree): (r: seq<Token>)
    requires t.IfElse?
    ensures |r| > 0
    decreases t, 0, 0
  {
    if t.chained && t.no.IfElse? then [TElseif] + Choice(t.no) else [TElse] + Print(t.no)
  }

  const UNBOUNDED: nat := 100

  /** The tightest operator that can follow a text without becoming part of its end. */
  function OpenEnd(t: Tree): nat {
    match t
    case Leaf(_) => UNBOUNDED
    case Group(_) => UNBOUNDED
    case Unary(_, x) => if OpenEnd(x) < UNARY_PRIORITY then OpenEnd(x) else UNARY_PRIORITY
    case Binary(op, _, r) => if OpenEnd(r) < RightPriority(op) then OpenEnd(r) else RightPriority(op)
    case IfElse(_, _, _, _) => 0
    case Assertion(_, _) => UNBOUNDED
  }

  /** An assertion that follows the text does not become part of its end. */
  predicate Sealed(t: Tree) {
    match t
    case Leaf(_) => false
    case Group(_) => false
    case Unary(_, x) => Sealed(x)
    case Binary(_, _, r) => Sealed(r)
    case IfElse(_, _, _, _) => false
    case Assertion(_, _) => true
  }

  /** Nor, behind the last `else`, of what comes there. */
  predicate Closed(t: Tree)
    requires t.IfElse?
  {
    if t.chained && t.no.IfElse? then Closed(t.no) else Sealed(t.no)
  }

  predicate Simple(t: Tree) {
    t.Leaf? || t.Group? || t.IfElse?
  }

  /** Every operand that needs parentheses has them, where only operators above `limit` may stand outside. */
  predicate WellFormed(t: Tree, limit: nat) {
    match t
    case Leaf(_) => true
    case Group(x) => WellFormed(x, 0)
    case Unary(_, x) => WellFormed(x, UNARY_PRIORITY)
    case Binary(op, l, r) =>
      && LeftPriority(op) > limit
      && WellFormed(l, limit) && LeftPriority(op) <= OpenEnd(l)
      && WellFormed(r, RightPriority(op))
    case IfElse(c, y, n, chained) => WellFormed(c, 0) && WellFormed(y, 0) && WellFormed(n, 0) && (chained ==> n.IfElse?)
    case Assertion(x, _) => Simple(x) && WellFormed(x, 0) && (x.IfElse? ==> Closed(x))
  }

  /** The token at `pos` is no operator that binds more tightly than `limit`. */
  predicate StopsAt(ts: seq<Token>, pos: nat, limit: nat) {
    pos < |ts| ==> ParseBinaryOp(ts[pos]).Some? ==> LeftPriority(ParseBinaryOp(ts[pos]).value) <= limit
  }

  predicate NoAssertionAt(ts: seq<Token>, pos: nat) {
    pos < |ts| ==> ts[pos] != TDoubleColon
  }

  /** What comes at `pos` does not become part of a text that ends there. */
  predicate EndsAt(ts: seq<Token>, pos: nat, t: Tree) {
    StopsAt(ts, pos, OpenEnd(t)) && (Sealed(t) || NoAssertionAt(ts, pos))
  }

  /** The same for what comes behind `if`. */
  predicate ChoiceEndsAt(ts: seq<Token>, pos: nat, t: Tree)
    requires t.IfElse?
  {
    StopsAt(ts, pos, 0) && (Closed(t) || NoAssertionAt(ts, pos))
  }

  // ----- parsing -----

  function ParseExpr(ts: seq<Token>, pos: nat, limit: nat): (r: Option<(Tree, nat)>)
    ensures r.Some? ==> pos < r.value.1 <= |ts|
    decreases |ts| - pos, 4
  {
    match ParseHead(ts, pos)
    case None => None
    case Some((t, next)) => ParseOperators(ts, t, next, limit)
  }

  /** A unary operator takes everything that binds more tightly than it does. */
  function ParseHead(ts: seq<Token>, pos: nat): (r: Option<(Tree, nat)>)
    ensures r.Some? ==> pos < r.value.1 <= |ts|
    decreases |ts| - pos, 3
  {
    if pos < |ts| && ParseUnaryOp(ts[pos]).Some? then
      match ParseExpr(ts, pos + 1, UNARY_PRIORITY)
      case None => None
      case Some((x, next)) => Some((Unary(ParseUnaryOp(ts[pos]).value, x), next))
    else ParseAssertion(ts, pos)
  }

  /** One type may be asserted. */
  function ParseAssertion(ts: seq<Token>, pos: nat): (r: Option<(Tree, nat)>)
    ensures r.Some? ==> pos < r.value.1 <= |ts|
    decreases |ts| - pos, 2
  {
    match ParseSimple(ts, pos)
    case None => None
    case Some((x, next)) =>
      if NoAssertionAt(ts, next) then Some((x, next))
      else if next + 1 < |ts| && ts[next + 1].TypeName? then Some((Assertion(x, ts[next + 1].n), next + 2))
      else None
  }

  function ParseSimple(ts: seq<Token>, pos: nat): (r: Option<(Tree, nat)>)
    ensures r.Some? ==> pos < r.value.1 <= |ts|
    decreases |ts| - pos, 1
  {
    if pos >= |ts| then None
    else if ts[pos].Atom? then Some((Leaf(ts[pos].n), pos + 1))
    else if ts[pos].Open? then
      match ParseExpr(ts, pos + 1, 0)
      case None => None
      case Some((x, next)) => if next < |ts| && ts[next].Close? then Some((Group(x), next + 1)) else None
    else if ts[pos].TIf? then ParseChoice(ts, pos + 1)
    else None
  }

  /** Behind `if` or `elseif`. */
  function ParseChoice(ts: seq<Token>, pos: nat): (r: Option<(Tree, nat)>)
    ensures r.Some? ==> pos < r.value.1 <= |ts| && r.value.0.IfElse?
    decreases |ts| - pos, 5
  {
    match ParseExpr(ts, pos, 0)
    case None => None
    case Some((c, then_)) =>
      if then_ >= |ts| || !ts[then_].TThen? then None else
        match ParseExpr(ts, then_ + 1, 0)
        case None => None
        case Some((y, else_)) => ParseOtherwise(ts, else_, c, y)
  }

  function ParseOtherwise(ts: seq<Token>, pos: nat, c: Tree, y: Tree): (r: Option<(Tree, nat)>)
    ensures r.Some? ==> pos < r.value.1 <= |ts| && r.value.0.IfElse?
    decreases |ts| - pos, 0
  {
    if pos < |ts| && ts[pos].TElseif? then
      match ParseChoice(ts, pos + 1)
      case None => None
      case Some((n, next)) => Some((IfElse(c, y, n, true), next))
    else if pos < |ts| && ts[pos].TElse? then
      match ParseExpr(ts, pos + 1, 0)
      case None => None
      case Some((n, next)) => Some((IfElse(c, y, n, false), next))
    else None
  }

  /** Operators above the limit, one after the other. */
  function ParseOperators(ts: seq<Token>, t: Tree, pos: nat, limit: nat): (r: Option<(Tree, nat)>)
    requires pos <= |ts|
    ensures r.Some? ==> pos <= r.value.1 <= |ts|
    decreases |ts| - pos, 0
  {
    if StopsAt(ts, pos, limit) then Some((t, pos))
    else
      var op := ParseBinaryOp(ts[pos]).value;
      match ParseExpr(ts, pos + 1, RightPriority(op))
      case None => None
      case Some((r, next)) => ParseOperators(ts, Binary(op, t, r), next, limit)
  }

  // ----- the text of a well-formed tree parses to that tree -----

  ghost predicate TextAt(ts: seq<Token>, pos: nat, text: seq<Token>)
    ensures TextAt(ts, pos, text) ==> pos + |text| <= |ts|
    decreases |text|
  {
    if text == [] then pos <= |ts| else pos < |ts| && ts[pos] == text[0] && TextAt(ts, pos + 1, text[1..])
  }

  lemma {:induction false} SliceIsText(ts: seq<Token>, pos: nat, next: nat, text: seq<Token>)
    requires pos <= next <= |ts| && ts[pos..next] == text
    ensures TextAt(ts, pos, text)
    decreases |text|
  {
    if text != [] {
      assert text[0] == ts[pos] && text[1..] == ts[pos + 1..next];
      SliceIsText(ts, pos + 1, next, text[1..]);
    }
  }

  lemma {:induction false} TextParts(ts: seq<Token>, pos: nat, a: seq<Token>, b: seq<Token>)
    requires TextAt(ts, pos, a + b)
    ensures TextAt(ts, pos, a) && TextAt(ts, pos + |a|, b)
    decreases |a|
  {
    if a == [] {
      assert a + b == b;
    } else {
      assert (a + b)[0] == a[0] && (a + b)[1..] == a[1..] + b;
      TextParts(ts, pos + 1, a[1..], b);
    }
  }

  lemma TokenAt(ts: seq<Token>, pos: nat, t: Token)
    requires TextAt(ts, pos, [t])
    ensures pos < |ts| && ts[pos] == t
  {
    assert TextAt(ts, pos, [t]) == (pos < |ts| && ts[pos] == t && TextAt(ts, pos + 1, [t][1..]));
  }

  /** After its text, parsing is where it would be if the tree had just been put together. */
  lemma {:induction false} TextIsParsed(ts: seq<Token>, pos: nat, t: Tree, limit: nat)
    requires WellFormed(t, limit) && TextAt(ts, pos, Print(t)) && EndsAt(ts, pos + |Print(t)|, t)
    ensures ParseExpr(ts, pos, limit) == ParseOperators(ts, t, pos + |Print(t)|, limit)
    decreases t, 4
  {
    match t
    case Unary(_, _) => UnaryIsParsed(ts, pos, t, limit);
    case Binary(_, _, _) => BinaryIsParsed(ts, pos, t, limit);
    case Assertion(_, _) => AssertionIsParsed(ts, pos, t, limit);
    case _ =>
      SimpleIsParsed(ts, pos, t, limit);
      NoUnary(ts, pos);
  }

  /** What starts a simple expression is no unary operator. */
  lemma NoUnary(ts: seq<Token>, pos: nat)
    requires ParseSimple(ts, pos).Some?
    ensures ParseHead(ts, pos) == ParseAssertion(ts, pos)
  {
  }

  lemma {:induction false} SimpleIsParsed(ts: seq<Token>, pos: nat, t: Tree, limit: nat)
    requires Simple(t) && WellFormed(t, limit) && TextAt(ts, pos, Print(t))
    requires t.IfElse? ==> ChoiceEndsAt(ts, pos + |Print(t)|, t)
    ensures ParseSimple(ts, pos) == Some((t, pos + |Print(t)|))
    decreases t, 3
  {
    match t
    case Leaf(n) => TokenAt(ts, pos, Atom(n));
    case Group(_) => GroupIsParsed(ts, pos, t, limit);
    case IfElse(_, _, _, _) =>
      TextParts(ts, pos, [TIf], Choice(t));
      TokenAt(ts, pos, TIf);
      ChoiceIsParsed(ts, pos + 1, t);
  }

  lemma {:induction false} GroupIsParsed(ts: seq<Token>, pos: nat, t: Tree, limit: nat)
    requires WellFormed(t, limit) && TextAt(ts, pos, Print(t)) && t.Group?
    ensures ParseSimple(ts, pos) == Some((t, pos + |Print(t)|))
    decreases t, 0
  {
    var x := t.inner;
    var close := pos + 1 + |Print(x)|;
    TextParts(ts, pos, [Open] + Print(x), [Close]);
    TextParts(ts, pos, [Open], Print(x));
    TokenAt(ts, pos, Open);
    TokenAt(ts, close, Close);
    WholeIsParsed(ts, pos + 1, x, 0);
  }

  /** A text that is followed by no operator is parsed to the end. */
  lemma {:induction false} WholeIsParsed(ts: seq<Token>, pos: nat, t: Tree, limit: nat)
    requires WellFormed(t, limit) && TextAt(ts, pos, Print(t))
    requires EndsAt(ts, pos + |Print(t)|, t) && StopsAt(ts, pos + |Print(t)|, limit)
    ensures ParseExpr(ts, pos, limit) == Some((t, pos + |Print(t)|))
    decreases t, 5
  {
    TextIsParsed(ts, pos, t, limit);
  }

  /** The parts of a choice, with the words between them. */
  lemma ChoiceText(ts: seq<Token>, pos: nat, t: Tree)
    requires t.IfElse? && TextAt(ts, pos, Choice(t))
    ensures
      var then_ := pos + |Print(t.cond)|;
      var else_ := then_ + 1 + |Print(t.yes)|;
      && TextAt(ts, pos, Print(t.cond)) && ts[then_] == TThen
      && TextAt(ts, then_ + 1, Print(t.yes)) && TextAt(ts, else_, Otherwise(t))
      && else_ + |Otherwise(t)| == pos + |Choice(t)|
  {
    var a, b, c := Print(t.cond), Print(t.yes), Otherwise(t);
    TextParts(ts, pos, a + [TThen], b + c);
    TextParts(ts, pos, a, [TThen]);
    TokenAt(ts, pos + |a|, TThen);
    TextParts(ts, pos + |a| + 1, b, c);
  }

  lemma {:induction false} ChoiceIsParsed(ts: seq<Token>, pos: nat, t: Tree)
    requires t.IfElse? && WellFormed(t, 0) && TextAt(ts, pos, Choice(t)) && ChoiceEndsAt(ts, pos + |Choice(t)|, t)
    ensures ParseChoice(ts, pos) == Some((t, pos + |Choice(t)|))
    decreases t, 2
  {
    var else_ := pos + |Print(t.cond)| + 1 + |Print(t.yes)|;
    ChoiceText(ts, pos, t);
    OtherwiseStarts(ts, else_, t);
    OtherwiseIsParsed(ts, else_, t);
    PartsAreParsed(ts, pos, t, t.cond, t.yes, else_, ParseOtherwise(ts, else_, t.cond, t.yes));
  }

  lemma {:induction false} PartsAreParsed(ts: seq<Token>, pos: nat, t: Tree, c: Tree, y: Tree, else_: nat, rest: Option<(Tree, nat)>)
    requires c < t && y < t && WellFormed(c, 0) && WellFormed(y, 0)
    requires TextAt(ts, pos, Print(c)) && pos + |Print(c)| < |ts| && ts[pos + |Print(c)|] == TThen
    requires TextAt(ts, pos + |Print(c)| + 1, Print(y)) && else_ == pos + |Print(c)| + 1 + |Print(y)| < |ts|
    requires ts[else_] == TElse || ts[else_] == TElseif
    requires rest == ParseOtherwise(ts, else_, c, y)
    ensures ParseChoice(ts, pos) == rest
    decreases t, 0
  {
    UpToWord(ts, pos, c, pos + |Print(c)|);
    UpToWord(ts, pos + |Print(c)| + 1, y, else_);
    ChoiceStep(ts, pos, c, pos + |Print(c)|, y, else_);
  }

  /** An expression is parsed up to the word that follows it. */
  lemma {:induction false} UpToWord(ts: seq<Token>, pos: nat, t: Tree, end: nat)
    requires WellFormed(t, 0) && TextAt(ts, pos, Print(t)) && end == pos + |Print(t)| < |ts|
    requires ts[end] == TThen || ts[end] == TElse || ts[end] == TElseif
    ensures ParseExpr(ts, pos, 0) == Some((t, end))
    decreases t, 6
  {
    WordEnds(ts, end, t);
    WholeIsParsed(ts, pos, t, 0);
  }

  /** Nothing is taken from a word on. */
  lemma WordEnds(ts: seq<Token>, pos: nat, t: Tree)
    requires pos < |ts| && (ts[pos] == TThen || ts[pos] == TElse || ts[pos] == TElseif)
    ensures StopsAt(ts, pos, 0) && EndsAt(ts, pos, t)
  {
  }

  lemma ChoiceStep(ts: seq<Token>, pos: nat, c: Tree, then_: nat, y: Tree, else_: nat)
    requires ParseExpr(ts, pos, 0) == Some((c, then_)) && then_ < |ts| && ts[then_] == TThen
    requires ParseExpr(ts, then_ + 1, 0) == Some((y, else_))
    ensures ParseChoice(ts, pos) == ParseOtherwise(ts, else_, c, y)
  {
  }

  lemma OtherwiseStarts(ts: seq<Token>, pos: nat, t: Tree)
    requires t.IfElse? && TextAt(ts, pos, Otherwise(t))
    ensures ts[pos] == if t.chained && t.no.IfElse? then TElseif else TElse
    ensures TextAt(ts, pos + 1, if t.chained && t.no.IfElse? then Choice(t.no) else Print(t.no))
  {
    if t.chained && t.no.IfElse? {
      TextParts(ts, pos, [TElseif], Choice(t.no));
      TokenAt(ts, pos, TElseif);
    } else {
      TextParts(ts, pos, [TElse], Print(t.no));
      TokenAt(ts, pos, TElse);
    }
  }

  lemma {:induction false} OtherwiseIsParsed(ts: seq<Token>, pos: nat, t: Tree)
    requires t.IfElse? && WellFormed(t, 0) && TextAt(ts, pos, Otherwise(t)) && ChoiceEndsAt(ts, pos + |Otherwise(t)|, t)
    ensures ParseOtherwise(ts, pos, t.cond, t.yes) == Some((t, pos + |Otherwise(t)|))
    decreases t, 1
  {
    OtherwiseStarts(ts, pos, t);
    if t.chained {
      ChoiceIsParsed(ts, pos + 1, t.no);
      ElseifStep(ts, pos, t, pos + 1 + |Choice(t.no)|);
    } else {
      LastIsParsed(ts, pos + 1, t.no);
      ElseStep(ts, pos, t, pos + 1 + |Print(t.no)|);
    }
  }

  lemma ElseifStep(ts: seq<Token>, pos: nat, t: Tree, next: nat)
    requires t.IfElse? && t.chained && pos < |ts| && ts[pos] == TElseif && ParseChoice(ts, pos + 1) == Some((t.no, next))
    ensures ParseOtherwise(ts, pos, t.cond, t.yes) == Some((t, next))
  {
  }

  lemma ElseStep(ts: seq<Token>, pos: nat, t: Tree, next: nat)
    requires t.IfElse? && !t.chained && pos < |ts| && ts[pos] == TElse && ParseExpr(ts, pos + 1, 0) == Some((t.no, next))
    ensures ParseOtherwise(ts, pos, t.cond, t.yes) == Some((t, next))
  {
  }

  /** An expression behind `else` takes every operator. */
  lemma {:induction false} LastIsParsed(ts: seq<Token>, pos: nat, t: Tree)
    requires WellFormed(t, 0) && TextAt(ts, pos, Print(t)) && StopsAt(ts, pos + |Print(t)|, 0)
    requires Sealed(t) || NoAssertionAt(ts, pos + |Print(t)|)
    ensures ParseExpr(ts, pos, 0) == Some((t, pos + |Print(t)|))
    decreases t, 6
  {
    StopsEarlier(ts, pos + |Print(t)|, 0, OpenEnd(t));
    WholeIsParsed(ts, pos, t, 0);
  }

  lemma AssertionText(ts: seq<Token>, pos: nat, a: seq<Token>, n: nat)
    requires TextAt(ts, pos, a + [TDoubleColon, TypeName(n)])
    ensures TextAt(ts, pos, a) && pos + |a| + 1 < |ts| && ts[pos + |a|] == TDoubleColon && ts[pos + |a| + 1] == TypeName(n)
  {
    TextParts(ts, pos, a, [TDoubleColon, TypeName(n)]);
    assert [TDoubleColon, TypeName(n)] == [TDoubleColon] + [TypeName(n)];
    TextParts(ts, pos + |a|, [TDoubleColon], [TypeName(n)]);
    TokenAt(ts, pos + |a|, TDoubleColon);
    TokenAt(ts, pos + |a| + 1, TypeName(n));
  }

  lemma AssertionStep(ts: seq<Token>, pos: nat, x: Tree, colon: nat, n: nat, limit: nat)
    requires ParseSimple(ts, pos) == Some((x, colon)) && colon + 1 < |ts|
    requires ts[colon] == TDoubleColon && ts[colon + 1] == TypeName(n)
    ensures ParseExpr(ts, pos, limit) == ParseOperators(ts, Assertion(x, n), colon + 2, limit)
  {
    NoUnary(ts, pos);
  }

  lemma {:induction false} AssertionIsParsed(ts: seq<Token>, pos: nat, t: Tree, limit: nat)
    requires WellFormed(t, limit) && TextAt(ts, pos, Print(t)) && t.Assertion?
    ensures ParseExpr(ts, pos, limit) == ParseOperators(ts, t, pos + |Print(t)|, limit)
    decreases t, 0
  {
    var x, n := t.asserted, t.annotation;
    AssertionText(ts, pos, Print(x), n);
    SimpleIsParsed(ts, pos, x, 0);
    AssertionStep(ts, pos, x, pos + |Print(x)|, n, limit);
  }

  lemma {:induction false} UnaryIsParsed(ts: seq<Token>, pos: nat, t: Tree, limit: nat)
    requires WellFormed(t, limit) && TextAt(ts, pos, Print(t)) && EndsAt(ts, pos + |Print(t)|, t) && t.Unary?
    ensures ParseExpr(ts, pos, limit) == ParseOperators(ts, t, pos + |Print(t)|, limit)
    decreases t, 0
  {
    var op, x := t.uop, t.operand;
    var end := pos + 1 + |Print(x)|;
    TextParts(ts, pos, [UnaryToken(op)], Print(x));
    TokenAt(ts, pos, UnaryToken(op));
    OperatorTokens(op, L.Or, ts[pos]);
    StopsEarlier(ts, end, OpenEnd(t), OpenEnd(x));
    StopsEarlier(ts, end, OpenEnd(t), UNARY_PRIORITY);
    WholeIsParsed(ts, pos + 1, x, UNARY_PRIORITY);
    assert ParseHead(ts, pos) == Some((t, end));
  }

  /** The text of a binary expression: its operands, and the operator between them. */
  lemma BinaryText(ts: seq<Token>, pos: nat, op: L.BinaryOp, a: seq<Token>, b: seq<Token>)
    requires TextAt(ts, pos, a + [BinaryToken(op)] + b)
    ensures TextAt(ts, pos, a) && TextAt(ts, pos + |a| + 1, b)
    ensures ParseBinaryOp(ts[pos + |a|]) == Some(op) && ts[pos + |a|] != TDoubleColon
  {
    var mid := pos + |a|;
    TextParts(ts, pos, a + [BinaryToken(op)], b);
    TextParts(ts, pos, a, [BinaryToken(op)]);
    TokenAt(ts, mid, BinaryToken(op));
    OperatorTokens(L.Not, op, ts[mid]);
  }

  lemma OperatorStep(ts: seq<Token>, op: L.BinaryOp, l: Tree, r: Tree, mid: nat, end: nat, limit: nat)
    requires mid < |ts| && ParseBinaryOp(ts[mid]) == Some(op) && LeftPriority(op) > limit && end <= |ts|
    requires ParseExpr(ts, mid + 1, RightPriority(op)) == Some((r, end))
    ensures ParseOperators(ts, l, mid, limit) == ParseOperators(ts, Binary(op, l, r), end, limit)
  {
  }

  /** What a well-formed binary expression says of its operands. */
  lemma BinaryOperands(t: Tree, limit: nat)
    requires t.Binary? && WellFormed(t, limit)
    ensures WellFormed(t.left, limit) && limit < LeftPriority(t.bop) <= OpenEnd(t.left)
    ensures WellFormed(t.right, RightPriority(t.bop)) && OpenEnd(t) <= OpenEnd(t.right) && OpenEnd(t) <= RightPriority(t.bop)
    ensures Sealed(t) == Sealed(t.right)
    ensures Print(t) == Print(t.left) + [BinaryToken(t.bop)] + Print(t.right)
  {
  }

  /** An operator above the limit and its right operand become part of the tree. */
  lemma {:induction false} RightIsParsed(ts: seq<Token>, op: L.BinaryOp, l: Tree, r: Tree, mid: nat, limit: nat)
    requires TextAt(ts, mid + 1, Print(r)) && ParseBinaryOp(ts[mid]) == Some(op) && LeftPriority(op) > limit
    requires WellFormed(r, RightPriority(op)) && EndsAt(ts, mid + 1 + |Print(r)|, r)
    requires StopsAt(ts, mid + 1 + |Print(r)|, RightPriority(op))
    ensures ParseOperators(ts, l, mid, limit) == ParseOperators(ts, Binary(op, l, r), mid + 1 + |Print(r)|, limit)
    decreases r, 6
  {
    WholeIsParsed(ts, mid + 1, r, RightPriority(op));
    OperatorStep(ts, op, l, r, mid, mid + 1 + |Print(r)|, limit);
  }

  lemma {:induction false} OperandsAreParsed(ts: seq<Token>, pos: nat, op: L.BinaryOp, l: Tree, r: Tree, mid: nat, limit: nat)
    requires TextAt(ts, pos, Print(l)) && mid == pos + |Print(l)| && WellFormed(l, limit) && EndsAt(ts, mid, l)
    requires TextAt(ts, mid + 1, Print(r)) && ParseBinaryOp(ts[mid]) == Some(op) && LeftPriority(op) > limit
    requires WellFormed(r, RightPriority(op)) && EndsAt(ts, mid + 1 + |Print(r)|, r)
    requires StopsAt(ts, mid + 1 + |Print(r)|, RightPriority(op))
    ensures ParseExpr(ts, pos, limit) == ParseOperators(ts, Binary(op, l, r), mid + 1 + |Print(r)|, limit)
    decreases Binary(op, l, r), 0
  {
    TextIsParsed(ts, pos, l, limit);
    RightIsParsed(ts, op, l, r, mid, limit);
  }

  lemma LeftEnds(ts: seq<Token>, pos: nat, op: L.BinaryOp, l: Tree)
    requires pos < |ts| && ParseBinaryOp(ts[pos]) == Some(op) && ts[pos] != TDoubleColon && LeftPriority(op) <= OpenEnd(l)
    ensures EndsAt(ts, pos, l)
  {
  }

  lemma RightEnds(ts: seq<Token>, pos: nat, t: Tree, r: Tree, limit: nat)
    requires EndsAt(ts, pos, t) && OpenEnd(t) <= OpenEnd(r) && OpenEnd(t) <= limit && Sealed(t) == Sealed(r)
    ensures EndsAt(ts, pos, r) && StopsAt(ts, pos, limit)
  {
    StopsEarlier(ts, pos, OpenEnd(t), OpenEnd(r));
    StopsEarlier(ts, pos, OpenEnd(t), limit);
  }

  lemma {:induction false} BinaryIsParsed(ts: seq<Token>, pos: nat, t: Tree, limit: nat)
    requires WellFormed(t, limit) && TextAt(ts, pos, Print(t)) && EndsAt(ts, pos + |Print(t)|, t) && t.Binary?
    ensures ParseExpr(ts, pos, limit) == ParseOperators(ts, t, pos + |Print(t)|, limit)
    decreases t, 1
  {
    var op, l, r := t.bop, t.left, t.right;
    var end := pos + |Print(t)|;
    BinaryOperands(t, limit);
    BinaryText(ts, pos, op, Print(l), Print(r));
    LeftEnds(ts, pos + |Print(l)|, op, l);
    RightEnds(ts, end, t, r, RightPriority(op));
    OperandsAreParsed(ts, pos, op, l, r, pos + |Print(l)|, limit);
  }

  lemma StopsEarlier(ts: seq<Token>, pos: nat, limit: nat, higher: nat)
    requires StopsAt(ts, pos, limit) && limit <= higher
    ensures StopsAt(ts, pos, higher)
  {
  }

  // ----- whatever is parsed is well-formed, and its text is what was read -----

  ghost predicate Read(ts: seq<Token>, pos: nat, t: Tree, next: nat, limit: nat) {
    && pos <= next <= |ts| && ts[pos..next] == Print(t)
    && WellFormed(t, limit) && EndsAt(ts, next, t)
  }

  ghost predicate ReadSimple(ts: seq<Token>, pos: nat, t: Tree, next: nat) {
    && pos <= next <= |ts| && ts[pos..next] == Print(t)
    && Simple(t) && (forall limit: nat :: WellFormed(t, limit)) && (t.IfElse? ==> ChoiceEndsAt(ts, next, t))
  }

  ghost predicate ReadChoice(ts: seq<Token>, pos: nat, t: Tree, next: nat) {
    && pos <= next <= |ts| && t.IfElse? && ts[pos..next] == Choice(t)
    && WellFormed(t, 0) && ChoiceEndsAt(ts, next, t)
  }

  lemma {:induction false} ParsedIsText(ts: seq<Token>, pos: nat, limit: nat)
    requires ParseExpr(ts, pos, limit).Some?
    ensures
      var (t, next) := ParseExpr(ts, pos, limit).value;
      Read(ts, pos, t, next, limit) && StopsAt(ts, next, limit)
    decreases |ts| - pos, 4
  {
    var (t, next) := ParseHead(ts, pos).value;
    HeadIsText(ts, pos, limit);
    OperatorsAreText(ts, pos, t, next, limit);
  }

  lemma {:induction false} HeadIsText(ts: seq<Token>, pos: nat, limit: nat)
    requires ParseHead(ts, pos).Some?
    ensures
      var (t, next) := ParseHead(ts, pos).value;
      Read(ts, pos, t, next, limit)
    decreases |ts| - pos, 3
  {
    if pos < |ts| && ParseUnaryOp(ts[pos]).Some? {
      ParsedIsText(ts, pos + 1, UNARY_PRIORITY);
      var (x, next) := ParseExpr(ts, pos + 1, UNARY_PRIORITY).value;
      OperatorTokens(ParseUnaryOp(ts[pos]).value, L.Or, ts[pos]);
      assert ts[pos..next] == [ts[pos]] + ts[pos + 1..next];
    } else {
      AssertionIsText(ts, pos, limit);
    }
  }

  lemma {:induction false} AssertionIsText(ts: seq<Token>, pos: nat, limit: nat)
    requires ParseAssertion(ts, pos).Some?
    ensures
      var (t, next) := ParseAssertion(ts, pos).value;
      Read(ts, pos, t, next, limit)
    decreases |ts| - pos, 2
  {
    SimpleIsText(ts, pos);
    var (x, next) := ParseSimple(ts, pos).value;
    if NoAssertionAt(ts, next) {
      assert OpenEnd(x) == if x.IfElse? then 0 else UNBOUNDED;
    } else {
      assert ts[pos..next + 2] == ts[pos..next] + [ts[next], ts[next + 1]];
    }
  }

  lemma {:induction false} SimpleIsText(ts: seq<Token>, pos: nat)
    requires ParseSimple(ts, pos).Some?
    ensures
      var (t, next) := ParseSimple(ts, pos).value;
      ReadSimple(ts, pos, t, next)
    decreases |ts| - pos, 1
  {
    if ts[pos].Open? {
      ParsedIsText(ts, pos + 1, 0);
      var (x, next) := ParseExpr(ts, pos + 1, 0).value;
      assert ts[pos..next + 1] == [ts[pos]] + ts[pos + 1..next] + [ts[next]];
    } else if ts[pos].TIf? {
      ChoiceIsText(ts, pos + 1);
      var (t, next) := ParseChoice(ts, pos + 1).value;
      assert ts[pos..next] == [ts[pos]] + ts[pos + 1..next];
    }
  }

  lemma {:induction false} ChoiceIsText(ts: seq<Token>, pos: nat)
    requires ParseChoice(ts, pos).Some?
    ensures
      var (t, next) := ParseChoice(ts, pos).value;
      ReadChoice(ts, pos, t, next)
    decreases |ts| - pos, 5
  {
    ParsedIsText(ts, pos, 0);
    var (c, then_) := ParseExpr(ts, pos, 0).value;
    ParsedIsText(ts, then_ + 1, 0);
    var (y, else_) := ParseExpr(ts, then_ + 1, 0).value;
    OtherwiseIsText(ts, else_, c, y);
    var (t, next) := ParseOtherwise(ts, else_, c, y).value;
    ChoiceRead(ts, pos, then_, else_, next, t);
    ChoiceStep(ts, pos, c, then_, y, else_);
  }

  lemma ChoiceRead(ts: seq<Token>, pos: nat, then_: nat, else_: nat, next: nat, t: Tree)
    requires pos <= then_ < else_ <= next <= |ts| && t.IfElse?
    requires ts[pos..then_] == Print(t.cond) && ts[then_] == TThen
    requires ts[then_ + 1..else_] == Print(t.yes) && ts[else_..next] == Otherwise(t)
    ensures ts[pos..next] == Choice(t)
  {
    assert ts[pos..next] == (ts[pos..then_] + [ts[then_]]) + (ts[then_ + 1..else_] + ts[else_..next]);
  }

  lemma {:induction false} OtherwiseIsText(ts: seq<Token>, pos: nat, c: Tree, y: Tree)
    requires ParseOtherwise(ts, pos, c, y).Some? && WellFormed(c, 0) && WellFormed(y, 0)
    ensures
      var (t, next) := ParseOtherwise(ts, pos, c, y).value;
      && t.IfElse? && t.cond == c && t.yes == y && pos <= next <= |ts| && ts[pos..next] == Otherwise(t)
      && WellFormed(t, 0) && ChoiceEndsAt(ts, next, t)
    decreases |ts| - pos, 0
  {
    var (t, next) := ParseOtherwise(ts, pos, c, y).value;
    assert ts[pos..next] == [ts[pos]] + ts[pos + 1..next];
    if ts[pos].TElseif? {
      ChoiceIsText(ts, pos + 1);
    } else {
      ParsedIsText(ts, pos + 1, 0);
    }
  }

  lemma {:induction false} OperatorsAreText(ts: seq<Token>, start: nat, t: Tree, pos: nat, limit: nat)
    requires Read(ts, start, t, pos, limit) && ParseOperators(ts, t, pos, limit).Some?
    ensures
      var (r, next) := ParseOperators(ts, t, pos, limit).value;
      Read(ts, start, r, next, limit) && StopsAt(ts, next, limit)
    decreases |ts| - pos, 0
  {
    if !StopsAt(ts, pos, limit) {
      var op := ParseBinaryOp(ts[pos]).value;
      ParsedIsText(ts, pos + 1, RightPriority(op));
      var (r, next) := ParseExpr(ts, pos + 1, RightPriority(op)).value;
      OperatorTokens(L.Not, op, ts[pos]);
      assert ts[start..next] == ts[start..pos] + [ts[pos]] + ts[pos + 1..next];
      OperatorsAreText(ts, start, Binary(op, t, r), next, limit);
    }
  }

  // ----- both directions -----

  /**
   Parsing inverts printing: a tree is the result, ending at `next`, exactly if it is well-formed, its text is what was
   read, and what follows neither binds more tightly than the limit nor belongs to the end of the text.
   */
  lemma ParseInvertsPrint(ts: seq<Token>, pos: nat, limit: nat, t: Tree, next: nat)
    ensures ParseExpr(ts, pos, limit) == Some((t, next)) <==>
            && pos <= next <= |ts| && ts[pos..next] == Print(t) && WellFormed(t, limit)
            && StopsAt(ts, next, limit) && EndsAt(ts, next, t)
  {
    if ParseExpr(ts, pos, limit) == Some((t, next)) {
      ParsedIsText(ts, pos, limit);
    }
    if pos <= next <= |ts| && ts[pos..next] == Print(t) && WellFormed(t, limit) && StopsAt(ts, next, limit) && EndsAt(ts, next, t) {
      SliceIsText(ts, pos, next, Print(t));
      WholeIsParsed(ts, pos, t, limit);
    }
  }

  /** No text has two well-formed readings. */
  lemma ReadingIsUnique(a: Tree, b: Tree)
    requires WellFormed(a, 0) && WellFormed(b, 0) && Print(a) == Print(b)
    ensures a == b
  {
    var ts := Print(a);
    assert ts[0..|ts|] == ts;
    ParseInvertsPrint(ts, 0, 0, a, |ts|);
    ParseInvertsPrint(ts, 0, 0, b, |ts|);
  }

  // ----- parentheses where they are needed -----

  function Strip(t: Tree): Tree {
    match t
    case Leaf(_) => t
    case Group(x) => Strip(x)
    case Unary(op, x) => Unary(op, Strip(x))
    case Binary(op, l, r) => Binary(op, Strip(l), Strip(r))
    case IfElse(c, y, n, _) => IfElse(Strip(c), Strip(y), Strip(n), false)
    case Assertion(x, n) => Assertion(Strip(x), n)
  }

  /** Puts an operand in parentheses exactly when it would not be read back as it is. */
  function Parenthesize(t: Tree, limit: nat): Tree {
    match t
    case Leaf(_) => t
    case Group(x) => Group(Parenthesize(x, 0))
    case Unary(op, x) => Unary(op, Parenthesize(x, UNARY_PRIORITY))
    case Binary(op, l, r) =>
      if LeftPriority(op) > limit then
        Binary(op, Followed(Parenthesize(l, limit), Parenthesize(l, 0), op), Parenthesize(r, RightPriority(op)))
      else
        var l' := Parenthesize(l, 0);
        Group(Binary(op, Followed(l', l', op), Parenthesize(r, RightPriority(op))))
    case IfElse(c, y, n, chained) =>
      IfElse(Parenthesize(c, 0), Parenthesize(y, 0), Parenthesize(n, 0), chained && n.IfElse?)
    case Assertion(x, n) =>
      var x' := Parenthesize(x, 0);
      Assertion(if Simple(x') && (x'.IfElse? ==> Closed(x')) then x' else Group(x'), n)
  }

  /** A left operand that would take the operator needs parentheses. */
  function Followed(t: Tree, inner: Tree, op: L.BinaryOp): Tree {
    if LeftPriority(op) <= OpenEnd(t) then t else Group(inner)
  }

  lemma FollowedFits(t: Tree, inner: Tree, op: L.BinaryOp, limit: nat)
    requires WellFormed(t, limit) && WellFormed(inner, 0) && Strip(t) == Strip(inner)
    ensures WellFormed(Followed(t, inner, op), limit) && LeftPriority(op) <= OpenEnd(Followed(t, inner, op))
    ensures Strip(Followed(t, inner, op)) == Strip(t)
  {
  }

  /** So every tree can be written down and read back, up to parentheses and `elseif`. */
  lemma {:induction false} AnyTreeCanBeWritten(t: Tree, limit: nat)
    ensures WellFormed(Parenthesize(t, limit), limit) && Strip(Parenthesize(t, limit)) == Strip(t)
    decreases t
  {
    match t
    case Leaf(_) =>
    case Group(x) => AnyTreeCanBeWritten(x, 0);
    case Unary(_, x) => AnyTreeCanBeWritten(x, UNARY_PRIORITY);
    case Binary(op, l, r) =>
      AnyTreeCanBeWritten(l, limit);
      AnyTreeCanBeWritten(l, 0);
      AnyTreeCanBeWritten(r, RightPriority(op));
      FollowedFits(Parenthesize(l, limit), Parenthesize(l, 0), op, limit);
      FollowedFits(Parenthesize(l, 0), Parenthesize(l, 0), op, 0);
    case IfElse(c, y, n, _) =>
      AnyTreeCanBeWritten(c, 0);
      AnyTreeCanBeWritten(y, 0);
      AnyTreeCanBeWritten(n, 0);
    case Assertion(x, _) => AnyTreeCanBeWritten(x, 0);
  }
}
