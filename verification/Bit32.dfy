/** The bit32 library at run time, and its folding at compile time, on 32-bit words seen bit by bit. */
module Bit32 {
  import opened PowersOfTwo
  import opened Results

  const NBITS := 32

  /** Bit 0 is the least significant one. */
  type Word = w: seq<bool> | |w| == 32 witness seq(32, _ => false)

  function WordFrom(bit: nat -> bool): (r: Word)
    ensures forall i: nat :: i < NBITS ==> r[i] == bit(i)
  {
    seq(32, i requires 0 <= i < 32 => bit(i))
  }

  function Zero(): Word { WordFrom(_ => false) }

  function AllOnes(): Word { WordFrom(_ => true) }

  function Not(x: Word): Word { WordFrom((i: nat) => i < NBITS && !x[i]) }

  function And(x: Word, y: Word): Word { WordFrom((i: nat) => i < NBITS && x[i] && y[i]) }

  function Or(x: Word, y: Word): Word { WordFrom((i: nat) => i < NBITS && (x[i] || y[i])) }

  function Xor(x: Word, y: Word): Word { WordFrom((i: nat) => i < NBITS && x[i] != y[i]) }

  /** Shifts are defined for less than 32 places only. */
  function Shl(x: Word, k: nat): Word
    requires k < NBITS
  {
    WordFrom((i: nat) => i < NBITS && i >= k && x[i - k])
  }

  function Shr(x: Word, k: nat): Word
    requires k < NBITS
  {
    WordFrom((i: nat) => i + k < NBITS && x[i + k])
  }

  /** The shift of a signed number repeats the sign. */
  function Sar(x: Word, k: nat): Word
    requires k < NBITS
  {
    WordFrom((i: nat) => if i + k < NBITS then x[i + k] else x[31])
  }

  function Bit(n: int, i: nat): bool
    decreases i
  {
    if i == 0 then n % 2 == 1 else Bit(n / 2, i - 1)
  }

  /** The low 32 bits of an integer, in two's complement. */
  function WordOf(n: int): Word {
    WordFrom((i: nat) => Bit(n, i))
  }

  // ----- arguments and results -----

  /** Towards zero, as a number is converted to an integer. */
  function Truncated(v: real): int {
    if v >= 0.0 then v.Floor else -(-v).Floor
  }

  datatype Arg = Number(v: real) | Other {
    function n(): int
      requires Number?
    {
      Truncated(v)
    }
  }

  datatype Op = Arshift | Band | Bnot | Bor | Bxor | Btest | Extract | Lrotate | Lshift | Replace | Rrotate | Rshift

  datatype Value = Num(w: Word) | Bool(b: bool)

  predicate AllNumbers(args: seq<Arg>) {
    forall a <- args :: a.Number?
  }

  // ----- compile time: BuiltinFolding.cpp -----

  /** The mask of `w` ones, as the folder builds it. */
  function FoldMask(w: nat): Word
    requires 0 < w <= NBITS
  {
    Not(Shl(WordOf(0xffff_fffe), w - 1))
  }

  function FoldAnd(args: seq<Arg>): Word
    requires |args| > 0 && AllNumbers(args)
    decreases |args|
  {
    var n := |args| - 1;
    if n == 0 then WordOf(args[0].n()) else And(FoldAnd(args[..n]), WordOf(args[n].n()))
  }

  function FoldOr(args: seq<Arg>): Word
    requires |args| > 0 && AllNumbers(args)
    decreases |args|
  {
    var n := |args| - 1;
    if n == 0 then WordOf(args[0].n()) else Or(FoldOr(args[..n]), WordOf(args[n].n()))
  }

  function FoldXor(args: seq<Arg>): Word
    requires |args| > 0 && AllNumbers(args)
    decreases |args|
  {
    var n := |args| - 1;
    if n == 0 then WordOf(args[0].n()) else Xor(FoldXor(args[..n]), WordOf(args[n].n()))
  }

  predicate FieldFits(f: int, w: int) {
    f >= 0 && w > 0 && f + w <= 32
  }

  /** What the folder yields, if it folds. */
  function Fold(op: Op, args: seq<Arg>): Option<Value> {
    var count := |args|;
    match op
    case Band => if count >= 1 && AllNumbers(args) then Some(Num(FoldAnd(args))) else None
    case Bor => if count >= 1 && AllNumbers(args) then Some(Num(FoldOr(args))) else None
    case Bxor => if count >= 1 && AllNumbers(args) then Some(Num(FoldXor(args))) else None
    case Btest => if count >= 1 && AllNumbers(args) then Some(Bool(FoldAnd(args) != Zero())) else None
    case Bnot => if count == 1 && args[0].Number? then Some(Num(Not(WordOf(args[0].n())))) else None
    case Extract =>
      if count >= 2 && args[0].Number? && args[1].Number? && (count == 2 || args[2].Number?) then
        var u, f, w := WordOf(args[0].n()), args[1].n(), if count == 2 then 1 else args[2].n();
        if FieldFits(f, w) then Some(Num(And(Shr(u, f), FoldMask(w)))) else None
      else None
    case Replace =>
      if count >= 3 && args[0].Number? && args[1].Number? && args[2].Number? && (count == 3 || args[3].Number?) then
        var n, v, f, w := WordOf(args[0].n()), WordOf(args[1].n()), args[2].n(), if count == 3 then 1 else args[3].n();
        if FieldFits(f, w) then
          var m := FoldMask(w);
          Some(Num(Or(And(n, Not(Shl(m, f))), Shl(And(v, m), f))))
        else None
      else None
    case _ =>
      if count == 2 && args[0].Number? && args[1].Number? then FoldShift(op, WordOf(args[0].n()), args[1].n()) else None
  }

  function FoldShift(op: Op, u: Word, s: int): Option<Value> {
    match op
    case Lrotate => Some(Num(Or(Shl(u, s % 32), Shr(u, (32 - s) % 32))))
    case Rrotate => Some(Num(Or(Shr(u, s % 32), Shl(u, (32 - s) % 32))))
    case Lshift => if 0 <= s < 32 then Some(Num(Shl(u, s))) else None
    case Rshift => if 0 <= s < 32 then Some(Num(Shr(u, s))) else None
    case Arshift => if 0 <= s < 32 then Some(Num(Sar(u, s))) else None
    case _ => None
  }

  // ----- run time: lbitlib.cpp -----

  function RunMask(w: nat): Word
    requires 0 < w <= NBITS
  {
    Not(Shl(Shl(AllOnes(), 1), w - 1))
  }

  function AndFrom(r: Word, args: seq<Arg>): Word
    requires AllNumbers(args)
    decreases |args|
  {
    if args == [] then r else AndFrom(And(r, WordOf(args[0].n())), args[1..])
  }

  function OrFrom(r: Word, args: seq<Arg>): Word
    requires AllNumbers(args)
    decreases |args|
  {
    if args == [] then r else OrFrom(Or(r, WordOf(args[0].n())), args[1..])
  }

  function XorFrom(r: Word, args: seq<Arg>): Word
    requires AllNumbers(args)
    decreases |args|
  {
    if args == [] then r else XorFrom(Xor(r, WordOf(args[0].n())), args[1..])
  }

  /** To the left, or to the right for a negative amount. */
  function Shift(r: Word, i: int): Word {
    if i < 0 then if -i >= NBITS then Zero() else Shr(r, -i)
    else if i >= NBITS then Zero() else Shl(r, i)
  }

  function ArithmeticShift(r: Word, i: int): Word {
    if i < 0 || !r[31] then Shift(r, -i)
    else if i >= NBITS then AllOnes()
    else Or(Shr(r, i), Not(Shr(AllOnes(), i)))
  }

  function Rotate(r: Word, amount: int): Word {
    var i := amount % 32;
    if i != 0 then Or(Shl(r, i), Shr(r, 32 - i)) else r
  }

  /** The library; none is an error. A missing width is one. */
  function Run(op: Op, args: seq<Arg>): Option<Value> {
    var count := |args|;
    match op
    case Band => if AllNumbers(args) then Some(Num(AndFrom(AllOnes(), args))) else None
    case Btest => if AllNumbers(args) then Some(Bool(AndFrom(AllOnes(), args) != Zero())) else None
    case Bor => if AllNumbers(args) then Some(Num(OrFrom(Zero(), args))) else None
    case Bxor => if AllNumbers(args) then Some(Num(XorFrom(Zero(), args))) else None
    case Bnot => if count >= 1 && args[0].Number? then Some(Num(Not(WordOf(args[0].n())))) else None
    case Extract =>
      if count >= 2 && args[0].Number? && args[1].Number? && (count == 2 || args[2].Number?) then
        var r, f, w := WordOf(args[0].n()), args[1].n(), if count == 2 then 1 else args[2].n();
        if FieldFits(f, w) then Some(Num(And(Shr(r, f), RunMask(w)))) else None
      else None
    case Replace =>
      if count >= 3 && args[0].Number? && args[1].Number? && args[2].Number? && (count == 3 || args[3].Number?) then
        var r, v, f, w := WordOf(args[0].n()), WordOf(args[1].n()), args[2].n(), if count == 3 then 1 else args[3].n();
        if FieldFits(f, w) then
          var m := RunMask(w);
          Some(Num(Or(And(r, Not(Shl(m, f))), Shl(And(v, m), f))))
        else None
      else None
    case _ =>
      if count >= 2 && args[0].Number? && args[1].Number? then Some(Num(RunShift(op, WordOf(args[0].n()), args[1].n()))) else None
  }

  function RunShift(op: Op, u: Word, s: int): Word {
    match op
    case Lrotate => Rotate(u, s)
    case Rrotate => Rotate(u, -s)
    case Lshift => Shift(u, s)
    case Rshift => Shift(u, -s)
    case Arshift => ArithmeticShift(u, s)
    case _ => Zero()
  }

  // ----- they agree -----

  lemma SameWord(x: Word, y: Word)
    requires forall i: nat :: i < NBITS ==> x[i] == y[i]
    ensures x == y
  {
  }

  /** A power of two minus one has ones only. */
  lemma {:induction false} Ones(k: nat, i: nat)
    requires i < k
    ensures Bit(Pow2(k) - 1, i)
    decreases k
  {
    if i > 0 {
      assert (Pow2(k) - 1) / 2 == Pow2(k - 1) - 1;
      Ones(k - 1, i - 1);
    }
  }

  lemma AllOnesMinusOne()
    ensures WordOf(0xffff_fffe) == Shl(AllOnes(), 1)
  {
    PowSplit(8, 8);
    PowSplit(16, 8);
    PowSplit(24, 7);
    assert Pow2(8) == 256 && Pow2(7) == 128;
    forall i: nat | i < NBITS
      ensures WordOf(0xffff_fffe)[i] == (i >= 1)
    {
      if i >= 1 {
        Ones(31, i - 1);
        assert 0xffff_fffe / 2 == Pow2(31) - 1;
      }
    }
    SameWord(WordOf(0xffff_fffe), Shl(AllOnes(), 1));
  }

  /** The two masks have exactly the low `w` bits. */
  lemma Masks(w: nat)
    requires 0 < w <= NBITS
    ensures FoldMask(w) == RunMask(w)
    ensures forall i: nat :: i < NBITS ==> RunMask(w)[i] == (i < w)
  {
    AllOnesMinusOne();
  }

  /** The bit that a bit comes from, around the ends of the word. */
  predicate Turned(u: Word, from: int) {
    u[from % 32]
  }

  /** A rotation moves bit `j` to bit `j + amount`, modulo 32. */
  lemma RotateBits(u: Word, amount: int, from: int, i: nat)
    requires i < NBITS && from == i - amount
    ensures Rotate(u, amount)[i] == Turned(u, from)
  {
    var a := amount % 32;
    assert from % 32 == if i >= a then i - a else i - a + 32;
  }

  lemma RotatesAgree(u: Word, s: int)
    ensures Or(Shl(u, s % 32), Shr(u, (32 - s) % 32)) == Rotate(u, s)
    ensures Or(Shr(u, s % 32), Shl(u, (32 - s) % 32)) == Rotate(u, -s)
  {
    var i := s % 32;
    assert (32 - s) % 32 == (if i == 0 then 0 else 32 - i) && (-s) % 32 == (32 - s) % 32;
    SameWord(Or(Shl(u, i), Shr(u, (32 - s) % 32)), Rotate(u, s));
    SameWord(Or(Shr(u, i), Shl(u, (32 - s) % 32)), Rotate(u, -s));
  }

  lemma ShiftsAgree(op: Op, u: Word, s: int)
    requires FoldShift(op, u, s).Some?
    ensures FoldShift(op, u, s) == Some(Num(RunShift(op, u, s)))
  {
    match op
    case Lrotate => RotatesAgree(u, s);
    case Rrotate => RotatesAgree(u, s);
    case Arshift => SameWord(Sar(u, s), ArithmeticShift(u, s));
    case Rshift => SameWord(Shr(u, s), Shift(u, -s));
    case Lshift =>
    case _ =>
  }

  /** Bit by bit, the variadic operations are what their names say, in whatever order they go. */
  lemma {:induction false} AndBits(r: Word, args: seq<Arg>, i: nat)
    requires AllNumbers(args) && i < NBITS
    ensures AndFrom(r, args)[i] == (r[i] && forall a <- args :: WordOf(a.n())[i])
    decreases |args|
  {
    if args != [] {
      AndBits(And(r, WordOf(args[0].n())), args[1..], i);
      assert args == [args[0]] + args[1..];
    }
  }

  lemma {:induction false} FoldAndBits(args: seq<Arg>, i: nat)
    requires |args| > 0 && AllNumbers(args) && i < NBITS
    ensures FoldAnd(args)[i] == forall a <- args :: WordOf(a.n())[i]
    decreases |args|
  {
    var n := |args| - 1;
    assert args == args[..n] + [args[n]];
    if n > 0 {
      FoldAndBits(args[..n], i);
    }
  }

  lemma {:induction false} OrBits(r: Word, args: seq<Arg>, i: nat)
    requires AllNumbers(args) && i < NBITS
    ensures OrFrom(r, args)[i] == (r[i] || exists a <- args :: WordOf(a.n())[i])
    decreases |args|
  {
    if args != [] {
      OrBits(Or(r, WordOf(args[0].n())), args[1..], i);
      assert args == [args[0]] + args[1..];
    }
  }

  lemma {:induction false} FoldOrBits(args: seq<Arg>, i: nat)
    requires |args| > 0 && AllNumbers(args) && i < NBITS
    ensures FoldOr(args)[i] == exists a <- args :: WordOf(a.n())[i]
    decreases |args|
  {
    var n := |args| - 1;
    assert args == args[..n] + [args[n]];
    if n > 0 {
      FoldOrBits(args[..n], i);
    }
  }

  /** How many of the arguments have the bit. */
  function Having(args: seq<Arg>, i: nat): nat
    requires AllNumbers(args) && i < NBITS
  {
    if args == [] then 0 else (if WordOf(args[0].n())[i] then 1 else 0) + Having(args[1..], i)
  }

  lemma {:induction false} XorBits(r: Word, args: seq<Arg>, i: nat)
    requires AllNumbers(args) && i < NBITS
    ensures XorFrom(r, args)[i] == (r[i] != (Having(args, i) % 2 == 1))
    decreases |args|
  {
    if args != [] {
      XorBits(Xor(r, WordOf(args[0].n())), args[1..], i);
    }
  }

  lemma {:induction false} XorSnoc(r: Word, args: seq<Arg>, a: Arg)
    requires AllNumbers(args) && a.Number?
    ensures XorFrom(r, args + [a]) == Xor(XorFrom(r, args), WordOf(a.n()))
    decreases |args|
  {
    if args == [] {
      assert [a][1..] == [];
    } else {
      assert (args + [a])[1..] == args[1..] + [a];
      XorSnoc(Xor(r, WordOf(args[0].n())), args[1..], a);
    }
  }

  lemma {:induction false} XorsAgree(args: seq<Arg>)
    requires |args| > 0 && AllNumbers(args)
    ensures FoldXor(args) == XorFrom(Zero(), args)
    decreases |args|
  {
    var n := |args| - 1;
    assert args == args[..n] + [args[n]];
    XorSnoc(Zero(), args[..n], args[n]);
    if n > 0 {
      XorsAgree(args[..n]);
    } else {
      SameWord(Xor(Zero(), WordOf(args[0].n())), WordOf(args[0].n()));
    }
  }

  lemma VariadicAgree(args: seq<Arg>)
    requires |args| > 0 && AllNumbers(args)
    ensures FoldAnd(args) == AndFrom(AllOnes(), args)
    ensures FoldOr(args) == OrFrom(Zero(), args)
    ensures FoldXor(args) == XorFrom(Zero(), args)
  {
    forall i: nat | i < NBITS
      ensures FoldAnd(args)[i] == AndFrom(AllOnes(), args)[i] && FoldOr(args)[i] == OrFrom(Zero(), args)[i]
    {
      FoldAndBits(args, i);
      AndBits(AllOnes(), args, i);
      FoldOrBits(args, i);
      OrBits(Zero(), args, i);
    }
    SameWord(FoldAnd(args), AndFrom(AllOnes(), args));
    SameWord(FoldOr(args), OrFrom(Zero(), args));
    XorsAgree(args);
  }

  predicate IsShift(op: Op) {
    op in {Lshift, Rshift, Arshift, Lrotate, Rrotate}
  }

  /** The folder leaves alone calls without arguments, surplus ones, and shifts by 32 or to the other side. */
  predicate LeftAlone(op: Op, args: seq<Arg>) {
    || args == []
    || (op == Bnot && |args| != 1)
    || (IsShift(op) && |args| != 2)
    || (op in {Lshift, Rshift, Arshift} && args[1].Number? && !(0 <= args[1].n() < 32))
  }

  /** Whatever the folder yields is what the library returns for the same arguments, and it yields all it can. */
  lemma FoldAgreesWithRun(op: Op, args: seq<Arg>)
    ensures Fold(op, args) == if LeftAlone(op, args) then None else Run(op, args)
  {
    if Fold(op, args).Some? {
      match op
      case Band => VariadicAgree(args);
      case Bor => VariadicAgree(args);
      case Bxor => VariadicAgree(args);
      case Btest => VariadicAgree(args);
      case Bnot =>
      case Extract => Masks(if |args| == 2 then 1 else args[2].n());
      case Replace => Masks(if |args| == 3 then 1 else args[3].n());
      case _ => ShiftsAgree(op, WordOf(args[0].n()), args[1].n());
    }
  }

  // ----- what the operations do, bit by bit -----

  lemma {:induction false} BitIs(n: int, i: nat)
    ensures Bit(n, i) <==> n / Pow2(i) % 2 == 1
    decreases i
  {
    if i > 0 {
      BitIs(n / 2, i - 1);
      DivProduct(n, 2, Pow2(i - 1));
    } else {
      assert Pow2(0) == 1;
    }
  }

  /** A word holds the low bits of a number, those of its two's complement if it is negative. */
  lemma WordBits(n: int, i: nat)
    requires i < NBITS
    ensures WordOf(n)[i] <==> n / Pow2(i) % 2 == 1
  {
    BitIs(n, i);
  }

  /** A number is cut off towards zero. */
  lemma TruncatedIs(v: real, n: int)
    ensures Truncated(v) == n <==>
      || (v >= 0.0 && n as real <= v < n as real + 1.0)
      || (v < 0.0 && n as real - 1.0 < v <= n as real)
  {
  }

  /** The bit that a bit of the word comes from, if it is one of the word. */
  predicate From(u: Word, i: int) {
    0 <= i < 32 && u[i]
  }

  lemma ShiftBits(u: Word, s: int, from: int, i: nat)
    requires i < NBITS && from == i - s
    ensures Shift(u, s)[i] == From(u, from)
  {
  }

  lemma ArithmeticBits(u: Word, s: int, from: int, i: nat)
    requires i < NBITS && from == i + s
    ensures ArithmeticShift(u, s)[i] == if from < 32 then From(u, from) else u[31]
  {
    ShiftBits(u, -s, from, i);
  }

  /** The result is a word that has bit `i` or has it not. */
  predicate Gives(r: Option<Value>, i: nat, bit: bool)
    requires i < NBITS
  {
    r.Some? && r.value.Num? && r.value.w[i] == bit
  }

  /** All of the arguments have bit `i`. */
  predicate InAll(args: seq<Arg>, i: nat)
    requires AllNumbers(args)
  {
    i < NBITS && forall a <- args :: WordOf(a.n())[i]
  }

  /** The shifts move the bits of the first argument by the second one, in either direction. */
  lemma LshiftResults(args: seq<Arg>, u: Word, s: int, i: nat)
    requires i < NBITS && |args| >= 2 && args[0].Number? && args[1].Number?
    requires u == WordOf(args[0].n()) && s == args[1].n()
    ensures Gives(Run(Lshift, args), i, From(u, i - s))
  {
    ShiftBits(u, s, i - s, i);
  }

  lemma RshiftResults(args: seq<Arg>, u: Word, s: int, i: nat)
    requires i < NBITS && |args| >= 2 && args[0].Number? && args[1].Number?
    requires u == WordOf(args[0].n()) && s == args[1].n()
    ensures Gives(Run(Rshift, args), i, From(u, i + s))
  {
    ShiftBits(u, -s, i + s, i);
  }

  lemma ArshiftResults(args: seq<Arg>, u: Word, s: int, i: nat)
    requires i < NBITS && |args| >= 2 && args[0].Number? && args[1].Number?
    requires u == WordOf(args[0].n()) && s == args[1].n()
    ensures Gives(Run(Arshift, args), i, if i + s < 32 then From(u, i + s) else u[31])
  {
    ArithmeticBits(u, s, i + s, i);
  }

  /** The rotations take them around the ends. */
  lemma LrotateResults(args: seq<Arg>, u: Word, s: int, i: nat)
    requires i < NBITS && |args| >= 2 && args[0].Number? && args[1].Number?
    requires u == WordOf(args[0].n()) && s == args[1].n()
    ensures Gives(Run(Lrotate, args), i, Turned(u, i - s))
  {
    RotateBits(u, s, i - s, i);
  }

  lemma RrotateResults(args: seq<Arg>, u: Word, s: int, i: nat)
    requires i < NBITS && |args| >= 2 && args[0].Number? && args[1].Number?
    requires u == WordOf(args[0].n()) && s == args[1].n()
    ensures Gives(Run(Rrotate, args), i, Turned(u, i + s))
  {
    RotateBits(u, -s, i + s, i);
  }

  /** A field is taken out, or put in the place of another one; outside the word it is an error. */
  lemma ExtractResults(args: seq<Arg>, i: nat)
    requires i < NBITS
    requires |args| >= 3 && args[0].Number? && args[1].Number? && args[2].Number?
    ensures
      var u, f, w, r := WordOf(args[0].n()), args[1].n(), args[2].n(), Run(Extract, args);
      && (r.Some? <==> f >= 0 && w > 0 && f + w <= 32)
      && (r.Some? ==> Gives(r, i, i < w && u[i + f]))
  {
    var f, w := args[1].n(), args[2].n();
    if FieldFits(f, w) {
      Masks(w);
    }
  }

  lemma ReplaceResults(args: seq<Arg>, i: nat)
    requires i < NBITS
    requires |args| >= 4 && args[0].Number? && args[1].Number? && args[2].Number? && args[3].Number?
    ensures
      var u, v, f, w, r := WordOf(args[0].n()), WordOf(args[1].n()), args[2].n(), args[3].n(), Run(Replace, args);
      && (r.Some? <==> f >= 0 && w > 0 && f + w <= 32)
      && (r.Some? ==> Gives(r, i, if f <= i < f + w then v[i - f] else u[i]))
  {
    var f, w := args[2].n(), args[3].n();
    if FieldFits(f, w) {
      Masks(w);
    }
  }

  /** The operations on any number of arguments: bit `i` of the result from that of each argument. */
  lemma VariadicResults(args: seq<Arg>, i: nat)
    requires i < NBITS && AllNumbers(args)
    ensures Gives(Run(Band, args), i, InAll(args, i))
    ensures Gives(Run(Bor, args), i, exists a <- args :: WordOf(a.n())[i])
    ensures Gives(Run(Bxor, args), i, Having(args, i) % 2 == 1)
  {
    AndBits(AllOnes(), args, i);
    OrBits(Zero(), args, i);
    XorBits(Zero(), args, i);
  }

  /** The test is whether the arguments have a bit in common. */
  lemma TestResults(args: seq<Arg>)
    requires AllNumbers(args)
    ensures Run(Btest, args) == Some(Bool(exists i: nat :: InAll(args, i)))
  {
    var r := AndFrom(AllOnes(), args);
    forall i: nat | i < NBITS
      ensures r[i] == InAll(args, i)
    {
      AndBits(AllOnes(), args, i);
    }
    if r != Zero() && forall i: nat :: !InAll(args, i) {
      SameWord(r, Zero());
    }
  }

  lemma ComplementResults(args: seq<Arg>, i: nat)
    requires i < NBITS && |args| >= 1 && args[0].Number?
    ensures Gives(Run(Bnot, args), i, !WordOf(args[0].n())[i])
  {
  }

  // ----- the loops -----

  /** The folder gives up at an argument that is no constant number. */
  method FoldBand(args: seq<Arg>) returns (r: Option<Word>)
    requires |args| >= 1
    ensures r == if AllNumbers(args) then Some(FoldAnd(args)) else None
  {
    if !args[0].Number? {
      return None;
    }
    var word := WordOf(args[0].n());
    for i := 1 to |args|
      invariant AllNumbers(args[..i]) && word == FoldAnd(args[..i])
    {
      if !args[i].Number? {
        assert args[i] in args;
        return None;
      }
      assert args[..i + 1][..i] == args[..i];
      assert args[..i + 1] == args[..i] + [args[i]];
      word := And(word, WordOf(args[i].n()));
    }
    assert args[..|args|] == args;
    return Some(word);
  }

  method FoldBor(args: seq<Arg>) returns (r: Option<Word>)
    requires |args| >= 1
    ensures r == if AllNumbers(args) then Some(FoldOr(args)) else None
  {
    if !args[0].Number? {
      return None;
    }
    var word := WordOf(args[0].n());
    for i := 1 to |args|
      invariant AllNumbers(args[..i]) && word == FoldOr(args[..i])
    {
      if !args[i].Number? {
        assert args[i] in args;
        return None;
      }
      assert args[..i + 1][..i] == args[..i];
      assert args[..i + 1] == args[..i] + [args[i]];
      word := Or(word, WordOf(args[i].n()));
    }
    assert args[..|args|] == args;
    return Some(word);
  }

  method FoldBxor(args: seq<Arg>) returns (r: Option<Word>)
    requires |args| >= 1
    ensures r == if AllNumbers(args) then Some(FoldXor(args)) else None
  {
    if !args[0].Number? {
      return None;
    }
    var word := WordOf(args[0].n());
    for i := 1 to |args|
      invariant AllNumbers(args[..i]) && word == FoldXor(args[..i])
    {
      if !args[i].Number? {
        assert args[i] in args;
        return None;
      }
      assert args[..i + 1][..i] == args[..i];
      assert args[..i + 1] == args[..i] + [args[i]];
      word := Xor(word, WordOf(args[i].n()));
    }
    assert args[..|args|] == args;
    return Some(word);
  }

  /** The library checks each argument in turn. */
  method AndAux(args: seq<Arg>) returns (r: Option<Word>)
    ensures r == if AllNumbers(args) then Some(AndFrom(AllOnes(), args)) else None
  {
    var word := AllOnes();
    for i := 0 to |args|
      invariant AllNumbers(args[..i])
      invariant AllNumbers(args[i..]) ==> AllNumbers(args) && AndFrom(word, args[i..]) == AndFrom(AllOnes(), args)
    {
      if !args[i].Number? {
        assert args[i] in args;
        return None;
      }
      assert args[..i + 1] == args[..i] + [args[i]] && args[i..] == [args[i]] + args[i + 1..];
      word := And(word, WordOf(args[i].n()));
    }
    assert args[|args|..] == [];
    return Some(word);
  }

  method BOr(args: seq<Arg>) returns (r: Option<Word>)
    ensures r == if AllNumbers(args) then Some(OrFrom(Zero(), args)) else None
  {
    var word := Zero();
    for i := 0 to |args|
      invariant AllNumbers(args[..i])
      invariant AllNumbers(args[i..]) ==> AllNumbers(args) && OrFrom(word, args[i..]) == OrFrom(Zero(), args)
    {
      if !args[i].Number? {
        assert args[i] in args;
        return None;
      }
      assert args[..i + 1] == args[..i] + [args[i]] && args[i..] == [args[i]] + args[i + 1..];
      word := Or(word, WordOf(args[i].n()));
    }
    assert args[|args|..] == [];
    return Some(word);
  }

  method BXor(args: seq<Arg>) returns (r: Option<Word>)
    ensures r == if AllNumbers(args) then Some(XorFrom(Zero(), args)) else None
  {
    var word := Zero();
    for i := 0 to |args|
      invariant AllNumbers(args[..i])
      invariant AllNumbers(args[i..]) ==> AllNumbers(args) && XorFrom(word, args[i..]) == XorFrom(Zero(), args)
    {
      if !args[i].Number? {
        assert args[i] in args;
        return None;
      }
      assert args[..i + 1] == args[..i] + [args[i]] && args[i..] == [args[i]] + args[i + 1..];
      word := Xor(word, WordOf(args[i].n()));
    }
    assert args[|args|..] == [];
    return Some(word);
  }
}
