/**
 Costs with discounts: a word of counters together with a mask that says which variable an expression depends on.
 Every cost the visitor can build is the plain one packed, and what is left of it after discounts is never negative.
 */
module CostAlgebra {
  import opened PowersOfTwo
  import opened PackedLanes
  import opened CostModel

  // ----- masks -----

  type Which = i: nat | i < 7

  /** Constant only if nothing else is known, constant always, or constant when variable `i` is. */
  datatype Mask = NoVariable | AllConstant | Variable(i: Which)

  const LITERAL: uint64 := 0xffff_ffff_ffff_ffff

  function MaskWord(m: Mask): uint64 {
    match m
    case NoVariable => 0
    case AllConstant => LITERAL
    case Variable(i) => WordIsMarks(m); Up(8 * i + 8, 0xff)
  }

  function Meet(x: Mask, y: Mask): Mask {
    if x.AllConstant? then y
    else if y.AllConstant? || x == y then x
    else NoVariable
  }

  predicate Marked(m: Mask, lane: nat) {
    m.AllConstant? || (m.Variable? && lane == m.i + 1)
  }

  /** `hit` in the lanes that the mask selects, from lane `first` on. */
  function Marks(m: Mask, hit: nat, first: nat, n: nat): (r: Lanes)
    ensures |r| == n
    decreases n
  {
    if n == 0 then [] else [if Marked(m, first) then hit else 0] + Marks(m, hit, first + 1, n - 1)
  }

  lemma {:induction false} UniformMarks(m: Mask, hit: nat, first: nat, n: nat)
    ensures m.AllConstant? ==> Marks(m, hit, first, n) == Same(hit, n)
    ensures m.NoVariable? || (m.Variable? && m.i + 1 < first) ==> Marks(m, hit, first, n) == Same(0, n)
    decreases n
  {
    if n > 0 {
      UniformMarks(m, hit, first + 1, n - 1);
    }
  }

  lemma {:induction false} PackZeros(k: nat, n: nat)
    ensures Pack(k, Same(0, n)) == 0
    decreases n
  {
    if n > 0 {
      PackZeros(k, n - 1);
      SameStep(k, 0, n - 1);
    }
  }

  lemma {:induction false} VariableMarks(m: Mask, hit: nat, first: nat, n: nat)
    requires m.Variable? && first <= m.i + 1 < first + n
    ensures Pack(8, Marks(m, hit, first, n)) == Up(8 * (m.i + 1 - first), hit)
    decreases n
  {
    var rest := Marks(m, hit, first + 1, n - 1);
    PackStep(8, if Marked(m, first) then hit else 0, rest);
    if first == m.i + 1 {
      UniformMarks(m, hit, first + 1, n - 1);
      PackZeros(8, n - 1);
    } else {
      VariableMarks(m, hit, first + 1, n - 1);
      UpTwice(8, 8 * (m.i - first), hit);
      UpIsTimes(8, Up(8 * (m.i - first), hit));
    }
  }

  lemma {:induction false} MarksBelow(m: Mask, hit: nat, first: nat, n: nat, bound: nat)
    requires hit < bound
    ensures AllBelow(Marks(m, hit, first, n), bound)
    decreases n
  {
    if n > 0 {
      MarksBelow(m, hit, first + 1, n - 1, bound);
    }
  }

  lemma WordIsMarks(m: Mask)
    ensures Pack(8, Marks(m, 0xff, 0, 8)) < TWO64
    ensures m.Variable? ==> Pack(8, Marks(m, 0xff, 0, 8)) == Up(8 * m.i + 8, 0xff)
  {
    MarksBelow(m, 0xff, 0, 8, 256);
    BytesMakeWord(Marks(m, 0xff, 0, 8));
    if m.Variable? {
      VariableMarks(m, 0xff, 0, 8);
    }
  }

  lemma MaskIsMarks(m: Mask)
    ensures MaskWord(m) == Pack(8, Marks(m, 0xff, 0, 8))
  {
    WordIsMarks(m);
    UniformMarks(m, 0xff, 0, 8);
    SameBytes(0xff);
    PackZeros(8, 8);
  }

  /** Only the literal mask has its lowest byte set. */
  lemma LiteralWord(m: Mask)
    ensures MaskWord(m) == LITERAL <==> m.AllConstant?
  {
    if m.Variable? {
      assert Up(8 * m.i + 8, 0xff) == 2 * Up(8 * m.i + 7, 0xff);
    }
  }

  lemma MarkBits(x: nat, y: nat)
    requires (x == 0 || x == 0xff) && (y == 0 || y == 0xff)
    ensures Bits(AndGate, 8, x, y) == if x == 0xff && y == 0xff then 0xff else 0
    ensures Bits(AndGate, 8, 1, y) == if y == 0xff then 1 else 0
  {
    Powers();
    BitsOnes(8, x);
    BitsOnes(8, 1);
    NoBits(x);
    NoBits(1);
    BitsZeroLeft(8, y);
  }

  lemma {:induction false} BitsZeroLeft(n: nat, y: nat)
    ensures Bits(AndGate, n, 0, y) == 0
    decreases n
  {
    if n > 0 {
      BitsZeroLeft(n - 1, y / 2);
    }
  }

  lemma MeetMark(x: Mask, y: Mask, lane: nat)
    ensures Marked(Meet(x, y), lane) <==> Marked(x, lane) && Marked(y, lane)
  {
  }

  lemma {:induction false} MeetLanes(x: Mask, y: Mask, first: nat, n: nat)
    ensures BitLanes(AndGate, 8, Marks(x, 0xff, first, n), Marks(y, 0xff, first, n)) == Marks(Meet(x, y), 0xff, first, n)
    decreases n
  {
    if n > 0 {
      MeetLanes(x, y, first + 1, n - 1);
      MeetMark(x, y, first);
      MarkBits(if Marked(x, first) then 0xff else 0, if Marked(y, first) then 0xff else 0);
    }
  }

  lemma {:induction false} OneLanes(y: Mask, first: nat, n: nat)
    ensures BitLanes(AndGate, 8, Same(1, n), Marks(y, 0xff, first, n)) == Marks(y, 1, first, n)
    decreases n
  {
    if n > 0 {
      OneLanes(y, first + 1, n - 1);
      MarkBits(0, if Marked(y, first) then 0xff else 0);
    }
  }

  /** The masks of two operands and-ed: constant when the same one variable makes both so. */
  lemma MeetWord(x: Mask, y: Mask)
    ensures And64(MaskWord(x), MaskWord(y)) == MaskWord(Meet(x, y))
  {
    MaskIsMarks(x);
    MaskIsMarks(y);
    MaskIsMarks(Meet(x, y));
    MarksBelow(x, 0xff, 0, 8, 256);
    MarksBelow(y, 0xff, 0, 8, 256);
    ByteBits(AndGate, Marks(x, 0xff, 0, 8), Marks(y, 0xff, 0, 8));
    MeetLanes(x, y, 0, 8);
  }

  // ----- the packed costs -----

  datatype Cost = Cost(model: uint64, constant: uint64) {
    static function Of(cost: nat, constant: uint64): Cost {
      Cost(if cost < 0x7f then cost else 0x7f, constant)
    }

    function Plus(other: Cost): Cost {
      Cost(ParallelAddSat(model, other.model), 0)
    }

    function Times(b: nat): Cost {
      Cost(ParallelMulSat(model, b), 0)
    }

    static function Fold(x: Cost, y: Cost): Cost {
      var sum := ParallelAddSat(x.model, y.model);
      var both := And64(x.constant, y.constant);
      var extra := if both == LITERAL then 0 else Or64(1, And64(0x0101010101010101, both));
      Cost(ParallelAddSat(sum, extra), both)
    }
  }

  // ----- the plain ones -----

  /** A baseline and seven discounts, and what makes the expression constant. */
  datatype PlainCost = PlainCost(lanes: Lanes, mask: Mask)

  function First(c: nat): Lanes {
    [c] + Same(0, 7)
  }

  function PlainOf(cost: nat, mask: Mask): PlainCost {
    PlainCost(First(Saturate(cost)), mask)
  }

  function PlainPlus(x: PlainCost, y: PlainCost): PlainCost
    requires |x.lanes| == |y.lanes|
  {
    PlainCost(PlainAdd(x.lanes, y.lanes), NoVariable)
  }

  function PlainTimes(x: PlainCost, b: nat): PlainCost {
    PlainCost(PlainMul(x.lanes, b), NoVariable)
  }

  /** Folding costs one instruction, which is saved when the one variable that both sides need is constant. */
  function Extra(m: Mask): (r: Lanes)
    ensures |r| == 8
  {
    if m.AllConstant? then Same(0, 8) else [1] + Marks(m, 1, 1, 7)
  }

  function PlainFold(x: PlainCost, y: PlainCost): PlainCost
    requires |x.lanes| == |y.lanes| == 8
  {
    var m := Meet(x.mask, y.mask);
    PlainCost(PlainAdd(PlainAdd(x.lanes, y.lanes), Extra(m)), m)
  }

  ghost predicate Represents(c: Cost, p: PlainCost) {
    Counters(p.lanes) && c.model == Pack(8, p.lanes) && c.constant == MaskWord(p.mask)
  }

  lemma FirstWord(c: nat)
    requires c < 128
    ensures Pack(8, First(c)) == c && Counters(First(c))
  {
    FirstOf(c, 7);
  }

  lemma FirstOf(c: nat, n: nat)
    requires c < 128
    ensures Pack(8, [c] + Same(0, n)) == c && AllBelow([c] + Same(0, n), 128)
  {
    PackStep(8, c, Same(0, n));
    PackZeros(8, n);
    SameBelow(0, n, 128);
    assert ([c] + Same(0, n))[1..] == Same(0, n);
  }

  lemma OfRepresents(cost: nat, mask: Mask)
    ensures Represents(Cost.Of(cost, MaskWord(mask)), PlainOf(cost, mask))
  {
    FirstWord(Saturate(cost));
  }

  lemma PlusRepresents(c: Cost, p: PlainCost, d: Cost, q: PlainCost)
    requires Represents(c, p) && Represents(d, q)
    ensures Represents(c.Plus(d), PlainPlus(p, q))
  {
    AddSatIsPlain(p.lanes, q.lanes);
  }

  lemma TimesRepresents(c: Cost, p: PlainCost, b: nat)
    requires Represents(c, p)
    ensures Represents(c.Times(b), PlainTimes(p, b))
  {
    MulSatIsPlain(p.lanes, b);
  }

  lemma {:induction false} OrNothing(w: Lanes)
    requires AllBelow(w, 256)
    ensures BitLanes(OrGate, 8, Same(0, |w|), w) == w
    decreases |w|
  {
    if w != [] {
      OrNothing(w[1..]);
      NoBits(w[0]);
    }
  }

  lemma ExtraLanes(m: Mask)
    requires !m.AllConstant?
    ensures Counters(Extra(m)) && BitLanes(OrGate, 8, First(1), Marks(m, 1, 0, 8)) == Extra(m)
  {
    var rest := Marks(m, 1, 1, 7);
    MarksBelow(m, 1, 1, 7, 128);
    BelowMore(rest, 128, 256);
    OrNothing(rest);
    NoBits(1);
    assert First(1)[1..] == Same(0, 7) && Marks(m, 1, 0, 8)[1..] == rest && Extra(m)[1..] == rest;
  }

  lemma ExtraWord(m: Mask)
    ensures Counters(Extra(m))
    ensures m.AllConstant? ==> Pack(8, Extra(m)) == 0
    ensures !m.AllConstant? ==> Or64(1, And64(0x0101010101010101, MaskWord(m))) == Pack(8, Extra(m))
  {
    if m.AllConstant? {
      PackZeros(8, 8);
      SameBelow(0, 8, 128);
    } else {
      MaskIsMarks(m);
      MarksBelow(m, 0xff, 0, 8, 256);
      MarksBelow(m, 1, 0, 8, 256);
      SameBytes(1);
      SameBelow(1, 8, 256);
      ByteBits(AndGate, Same(1, 8), Marks(m, 0xff, 0, 8));
      OneLanes(m, 0, 8);
      FirstWord(1);
      BelowMore(First(1), 128, 256);
      ByteBits(OrGate, First(1), Marks(m, 1, 0, 8));
      ExtraLanes(m);
    }
  }

  lemma FoldRepresents(c: Cost, p: PlainCost, d: Cost, q: PlainCost)
    requires Represents(c, p) && Represents(d, q)
    ensures Represents(Cost.Fold(c, d), PlainFold(p, q))
  {
    var m := Meet(p.mask, q.mask);
    MeetWord(p.mask, q.mask);
    LiteralWord(m);
    ExtraWord(m);
    AddSatIsPlain(p.lanes, q.lanes);
    AddSatIsPlain(PlainAdd(p.lanes, q.lanes), Extra(m));
  }

  // ----- discounts never exceed the baseline -----

  function Total(v: Lanes): nat {
    if v == [] then 0 else v[0] + Total(v[1..])
  }

  /** The baseline is saturated, or covers all discounts together. */
  ghost predicate Covered(v: Lanes) {
    Counters(v) && (v[0] == 127 || Total(v[1..]) <= v[0])
  }

  lemma {:induction false} TotalOfSum(v: Lanes, w: Lanes)
    requires |v| == |w|
    ensures Total(PlainAdd(v, w)) <= Total(v) + Total(w)
    decreases |v|
  {
    if v != [] {
      TotalOfSum(v[1..], w[1..]);
      assert PlainAdd(v, w)[1..] == PlainAdd(v[1..], w[1..]);
    }
  }

  lemma {:induction false} TotalOfProduct(v: Lanes, b: nat)
    ensures Total(PlainMul(v, b)) <= b * Total(v)
    decreases |v|
  {
    if v != [] {
      TotalOfProduct(v[1..], b);
      assert PlainMul(v, b)[1..] == PlainMul(v[1..], b);
      assert b * Total(v) == b * v[0] + b * Total(v[1..]);
    }
  }

  lemma SumCovered(v: Lanes, w: Lanes)
    requires Covered(v) && Covered(w)
    ensures Covered(PlainAdd(v, w))
  {
    AddSatIsPlain(v, w);
    TotalOfSum(v[1..], w[1..]);
    assert PlainAdd(v, w)[1..] == PlainAdd(v[1..], w[1..]);
    assert PlainAdd(v, w)[0] == Saturate(v[0] + w[0]);
  }

  lemma ProductCovered(v: Lanes, b: nat)
    requires Covered(v)
    ensures Covered(PlainMul(v, b))
  {
    MulSatIsPlain(v, b);
    TotalOfProduct(v[1..], b);
    assert PlainMul(v, b)[1..] == PlainMul(v[1..], b);
    assert PlainMul(v, b)[0] == Saturate(b * v[0]);
    ScaledCover(Total(v[1..]), v[0], b);
  }

  lemma ScaledCover(x: nat, y: nat, b: nat)
    requires y == 127 || x <= y
    ensures b * y >= 127 || b * x <= b * y
  {
    if b > 0 && y == 127 {
      assert b * y >= y;
    } else if b == 0 {
      assert b * x == 0;
    }
  }

  lemma {:induction false} OneMark(m: Mask, first: nat, n: nat)
    requires !m.AllConstant?
    ensures Total(Marks(m, 1, first, n)) <= if m.Variable? && first <= m.i + 1 then 1 else 0
    decreases n
  {
    if n > 0 {
      OneMark(m, first + 1, n - 1);
      assert Marks(m, 1, first, n)[1..] == Marks(m, 1, first + 1, n - 1);
    }
  }

  lemma {:induction false} TotalZero(n: nat)
    ensures Total(Same(0, n)) == 0
    decreases n
  {
    if n > 0 {
      TotalZero(n - 1);
      assert Same(0, n)[1..] == Same(0, n - 1);
    }
  }

  lemma FoldCovered(p: PlainCost, q: PlainCost)
    requires Covered(p.lanes) && Covered(q.lanes)
    ensures Covered(PlainFold(p, q).lanes)
  {
    var m := Meet(p.mask, q.mask);
    ExtraWord(m);
    if m.AllConstant? {
      TotalZero(7);
      assert Extra(m)[1..] == Same(0, 7);
    } else {
      OneMark(m, 1, 7);
      assert Extra(m)[1..] == Marks(m, 1, 1, 7);
    }
    SumCovered(p.lanes, q.lanes);
    SumCovered(PlainAdd(p.lanes, q.lanes), Extra(m));
  }

  // ----- every cost there can be -----

  /** The ways to build a cost. */
  datatype Build =
    | Base(cost: nat, mask: Mask)
    | Sum(left: Build, right: Build)
    | Product(body: Build, factor: nat)
    | Folded(left: Build, right: Build)

  function PackedOf(b: Build): Cost {
    match b
    case Base(cost, mask) => Cost.Of(cost, MaskWord(mask))
    case Sum(x, y) => PackedOf(x).Plus(PackedOf(y))
    case Product(x, k) => PackedOf(x).Times(k)
    case Folded(x, y) => Cost.Fold(PackedOf(x), PackedOf(y))
  }

  function PlainOfBuild(b: Build): (r: PlainCost)
    ensures |r.lanes| == 8
  {
    match b
    case Base(cost, mask) => PlainOf(cost, mask)
    case Sum(x, y) => PlainPlus(PlainOfBuild(x), PlainOfBuild(y))
    case Product(x, k) => PlainTimes(PlainOfBuild(x), k)
    case Folded(x, y) => PlainFold(PlainOfBuild(x), PlainOfBuild(y))
  }

  /** Every cost is the plain one packed, and its discounts are covered. */
  lemma {:induction false} EveryCostIsPlain(b: Build)
    ensures Represents(PackedOf(b), PlainOfBuild(b)) && Covered(PlainOfBuild(b).lanes)
    decreases b
  {
    match b
    case Base(cost, mask) =>
      OfRepresents(cost, mask);
      TotalZero(7);
      assert First(Saturate(cost))[1..] == Same(0, 7);
    case Sum(x, y) =>
      EveryCostIsPlain(x);
      EveryCostIsPlain(y);
      PlusRepresents(PackedOf(x), PlainOfBuild(x), PackedOf(y), PlainOfBuild(y));
      SumCovered(PlainOfBuild(x).lanes, PlainOfBuild(y).lanes);
    case Product(x, k) =>
      EveryCostIsPlain(x);
      TimesRepresents(PackedOf(x), PlainOfBuild(x), k);
      ProductCovered(PlainOfBuild(x).lanes, k);
    case Folded(x, y) =>
      EveryCostIsPlain(x);
      EveryCostIsPlain(y);
      FoldRepresents(PackedOf(x), PlainOfBuild(x), PackedOf(y), PlainOfBuild(y));
      FoldCovered(PlainOfBuild(x), PlainOfBuild(y));
  }

  // ----- the price of a cost, for given constants -----

  function Down(k: nat, x: nat): nat {
    if k == 0 then x else Down(k - 1, x / 2)
  }

  /** Seven bits of every byte. */
  function Unpacked(x: nat, n: nat): (r: Lanes)
    ensures |r| == n
    decreases n
  {
    if n == 0 then [] else [x % 128] + Unpacked(x / 256, n - 1)
  }

  /** The discounts of the variables that are constant. */
  function Selected(v: Lanes, flags: seq<bool>): nat {
    if v == [] || flags == [] then 0 else (if flags[0] then v[0] else 0) + Selected(v[1..], flags[1..])
  }

  /** Baseline less discounts; a saturated baseline is not discounted. */
  function Price(v: Lanes, flags: seq<bool>): int
    requires v != []
  {
    if v[0] == 127 then 127 else v[0] as int - Selected(v[1..], flags)
  }

  lemma UnpackedCons(x: nat, lo: nat, rest: nat, n: nat)
    requires x == lo + 256 * rest && lo < 128 && n > 0
    ensures Unpacked(x, n) == [lo] + Unpacked(rest, n - 1)
  {
    SameLow(x, lo, rest);
  }

  lemma PackCons(lo: nat, tail: Lanes, v: Lanes)
    requires v != [] && lo == v[0] && tail == v[1..]
    ensures Pack(8, v) == lo + 256 * Pack(8, tail)
  {
    Powers();
    UpIsTimes(8, Pack(8, tail));
  }

  lemma {:induction false} UnpackedPack(v: Lanes, n: nat)
    requires AllBelow(v, 128) && |v| == n
    ensures Unpacked(Pack(8, v), n) == v
    decreases n
  {
    if n > 0 {
      UnpackedPack(v[1..], n - 1);
      PackCons(v[0], v[1..], v);
      UnpackedCons(Pack(8, v), v[0], Pack(8, v[1..]), n);
      assert v == [v[0]] + v[1..];
    }
  }

  lemma {:induction false} SelectedBelowTotal(v: Lanes, flags: seq<bool>)
    ensures Selected(v, flags) <= Total(v)
    decreases |v|
  {
    if v != [] && flags != [] {
      SelectedBelowTotal(v[1..], flags[1..]);
    }
  }

  /** Whatever is constant, a price is from 0 to 127, and never above the price without discounts. */
  lemma PriceInRange(b: Build, flags: seq<bool>)
    ensures
      var v := Unpacked(PackedOf(b).model, 8);
      v == PlainOfBuild(b).lanes && 0 <= Price(v, flags) <= Price(v, []) <= 127
  {
    var v := PlainOfBuild(b).lanes;
    EveryCostIsPlain(b);
    UnpackedPack(v, 8);
    SelectedBelowTotal(v[1..], flags);
  }

  lemma LowSeven(x: uint64)
    ensures And64(x, 0x7f) == x % 128
  {
    WidePowers();
    Powers();
    PowSplit(8, 56);
    LowSevenOf(x, x % 256, x / 256);
  }

  lemma LowSevenOf(x: nat, lo: nat, hi: nat)
    requires x == lo + 256 * hi && lo < 256 && hi < Pow2(56)
    ensures Bits(AndGate, 64, x, 0x7f) == x % 128
  {
    Powers();
    UpIsTimes(8, hi);
    UpIsTimes(8, 0);
    LowSevenSplit(lo, hi);
    SameLow(x, lo, hi);
  }

  lemma LowSevenSplit(lo: nat, hi: nat)
    requires lo < 256 && hi < Pow2(56)
    ensures Bits(AndGate, 64, lo + Up(8, hi), 127 + Up(8, 0)) == lo % 128
  {
    Powers();
    BitsSplit(AndGate, 8, 56, lo, 127, hi, 0);
    UpIsTimes(8, 0);
    BitsZero(56, hi);
    LowBits(lo);
  }

  lemma {:induction false} DownBound(k: nat, x: nat)
    ensures Down(k, x) <= x
    decreases k
  {
    if k > 0 {
      DownBound(k - 1, x / 2);
    }
  }

  lemma {:induction false} DownMore(j: nat, k: nat, x: nat)
    ensures Down(j + k, x) == Down(k, Down(j, x))
    decreases j
  {
    if j > 0 {
      DownMore(j - 1, k, x / 2);
    }
  }

  lemma DownByte(x: nat)
    ensures Down(8, x) == x / 256
  {
    DownTwo(6, x);
    DownTwo(4, x / 4);
    DownTwo(2, x / 16);
    DownTwo(0, x / 64);
  }

  lemma DownTwo(k: nat, x: nat)
    ensures Down(k + 2, x) == Down(k, x / 4)
  {
    assert Down(k + 2, x) == Down(k + 1, x / 2) == Down(k, x / 2 / 2);
  }

  /** Discounts from variable `i` on. */
  function Left(model: nat, flags: seq<bool>, i: nat): nat
    requires i <= 7 && i <= |flags|
  {
    Selected(Unpacked(Down(i * 8 + 8, model), 7 - i), flags[i..])
  }

  lemma LeftStep(model: uint64, flags: seq<bool>, i: nat)
    requires i < 7 && i < |flags|
    ensures Down(i * 8 + 8, model) < TWO64
    ensures Left(model, flags, i) == And64(Down(i * 8 + 8, model), 0x7f) * (if flags[i] then 1 else 0) + Left(model, flags, i + 1)
  {
    var shifted := Down(i * 8 + 8, model);
    DownBound(i * 8 + 8, model);
    LowSeven(shifted);
    DownMore(i * 8 + 8, 8, model);
    DownByte(shifted);
    assert flags[i..][1..] == flags[i + 1..];
  }

  lemma LeftAll(model: uint64, flags: seq<bool>)
    requires model % 128 != 127
    ensures Price(Unpacked(model, 8), flags) == model % 128 - Left(model, flags, 0)
  {
    assert Unpacked(model, 8)[0] == model % 128 && Unpacked(model, 8)[1..] == Unpacked(model / 256, 7);
    DownByte(model);
    assert flags[0..] == flags;
  }

  /** The cost that is left when some of the variables are constant. */
  method ComputeCost(model: uint64, varsConst: seq<bool>) returns (cost: int)
    ensures cost == Price(Unpacked(model, 8), varsConst)
  {
    LowSeven(model);
    assert Unpacked(model, 8)[0] == model % 128;
    cost := And64(model, 0x7f);
    if cost == 0x7f {
      return;
    }
    LeftAll(model, varsConst);
    var i: nat := 0;
    while i < |varsConst| && i < 7
      invariant i <= 7 && i <= |varsConst|
      invariant cost - Left(model, varsConst, i) == Price(Unpacked(model, 8), varsConst)
    {
      LeftStep(model, varsConst, i);
      cost := cost - And64(Down(i * 8 + 8, model), 0x7f) * if varsConst[i] then 1 else 0;
      i := i + 1;
    }
  }
}
