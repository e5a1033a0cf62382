/** Eight saturating counters in one 64-bit word, against the plain eight counters. */
module CostModel {
  import opened PowersOfTwo
  import opened PackedLanes

  type uint64 = n: nat | n < 0x1_0000_0000_0000_0000

  const TWO64 := 0x1_0000_0000_0000_0000

  function And64(x: uint64, y: uint64): uint64 { WidePowers(); Bits(AndGate, 64, x, y) }

  function Or64(x: uint64, y: uint64): uint64 { WidePowers(); Bits(OrGate, 64, x, y) }

  function Xor64(x: uint64, y: uint64): uint64 { WidePowers(); Bits(XorGate, 64, x, y) }

  function Add64(x: uint64, y: uint64): uint64 { (x + y) % TWO64 }

  function Sub64(x: uint64, y: uint64): uint64 { (x as int - y) % TWO64 }

  function Mul64(x: uint64, y: uint64): uint64 { (x * y) % TWO64 }

  // ----- the packed operations -----

  const TOP_BITS: uint64 := 0x8080808080808080
  const EVEN_LANES: uint64 := 0x007f007f007f007f

  function ParallelAddSat(x: uint64, y: uint64): uint64 {
    var r := Add64(x, y);
    var s := And64(r, TOP_BITS);
    Or64(Xor64(r, s), Sub64(s, s / 128))
  }

  function ParallelMulSat(a: uint64, b: nat): uint64 {
    var bs := if b < 127 then b else 127;
    var l := Mul64(bs, And64(a, EVEN_LANES));
    var h := Mul64(bs, And64(a / 256, EVEN_LANES));
    var ls := Add64(l, 0x7f807f807f807f80);
    var hs := Add64(h, 0x7f807f807f807f80);
    var s := Or64(And64(hs, 0x8000800080008000), And64(ls, 0x8000800080008000) / 256);
    var r := Or64(Mul64(256, And64(h, EVEN_LANES)), And64(l, EVEN_LANES));
    Or64(r, Sub64(s, s / 128))
  }

  // ----- the plain operations -----

  function Saturate(d: nat): nat {
    if d >= 127 then 127 else d
  }

  /** Eight counters of seven bits. */
  ghost predicate Counters(v: Lanes) {
    |v| == 8 && AllBelow(v, 128)
  }

  function PlainAdd(v: Lanes, w: Lanes): Lanes
    requires |v| == |w|
  {
    Each(Saturate, AddLanes(v, w))
  }

  function PlainMul(v: Lanes, b: nat): Lanes {
    Each(Saturate, ScaleLanes(b, v))
  }

  // ----- constants with eight equal bytes -----

  lemma PackStep(k: nat, c: nat, v: Lanes)
    ensures Pack(k, [c] + v) == c + Pow2(k) * Pack(k, v)
  {
    assert ([c] + v)[1..] == v;
    UpIsTimes(k, Pack(k, v));
  }

  /** The value of eight equal bytes, or four equal pairs of bytes. */
  lemma SameBytes(c: nat)
    ensures Pack(8, Same(c, 8)) == 0x0101010101010101 * c
    ensures Pack(16, Same(c, 4)) == 0x0001000100010001 * c
  {
    Powers();
    WidePowers();
    SameStep(8, c, 0);
    SameStep(8, c, 1);
    SameStep(8, c, 2);
    SameStep(8, c, 3);
    SameStep(8, c, 4);
    SameStep(8, c, 5);
    SameStep(8, c, 6);
    SameStep(8, c, 7);
    SameStep(16, c, 0);
    SameStep(16, c, 1);
    SameStep(16, c, 2);
    SameStep(16, c, 3);
  }

  lemma SameStep(k: nat, c: nat, n: nat)
    ensures Pack(k, Same(c, n + 1)) == c + Pow2(k) * Pack(k, Same(c, n))
  {
    PackStep(k, c, Same(c, n));
  }

  lemma {:induction false} WidthIs(k: nat, v: Lanes, n: nat)
    requires |v| == n
    ensures Width(k, v) == n * k
    decreases n
  {
    if n > 0 {
      WidthIs(k, v[1..], n - 1);
      assert n * k == k + (n - 1) * k;
    }
  }

  lemma Widths(v: Lanes, w: Lanes)
    requires |v| == 8 && |w| == 4
    ensures Width(8, v) == 64 && Width(16, w) == 64
  {
    WidthIs(8, v, 8);
    WidthIs(16, w, 4);
  }

  /** Eight bytes make a word; bit operations on the words are those on the bytes. */
  lemma BytesMakeWord(v: Lanes)
    requires |v| == 8 && AllBelow(v, 256)
    ensures Pack(8, v) < TWO64 && Fit(8, v)
  {
    Powers();
    WidePowers();
    Widths(v, Same(0, 4));
    FitBelow(8, v, 256);
    PackBound(8, v);
  }

  lemma PairsMakeWord(w: Lanes)
    requires |w| == 4 && AllBelow(w, 0x1_0000)
    ensures Pack(16, w) < TWO64 && Fit(16, w)
  {
    Powers();
    WidePowers();
    Widths(Same(0, 8), w);
    FitBelow(16, w, 0x1_0000);
    PackBound(16, w);
  }

  lemma ByteBits(gate: Gate, v: Lanes, w: Lanes)
    requires |v| == |w| == 8 && AllBelow(v, 256) && AllBelow(w, 256)
    ensures Bits(gate, 64, Pack(8, v), Pack(8, w)) == Pack(8, BitLanes(gate, 8, v, w))
  {
    BytesMakeWord(v);
    BytesMakeWord(w);
    Widths(v, Same(0, 4));
    PackBits(gate, 8, v, w);
  }

  lemma PairBits(gate: Gate, v: Lanes, w: Lanes)
    requires |v| == |w| == 4 && AllBelow(v, 0x1_0000) && AllBelow(w, 0x1_0000)
    ensures Bits(gate, 64, Pack(16, v), Pack(16, w)) == Pack(16, BitLanes(gate, 16, v, w))
  {
    PairsMakeWord(v);
    PairsMakeWord(w);
    Widths(Same(0, 8), v);
    PackBits(gate, 16, v, w);
  }

  // ----- the sum -----

  function Carry(d: nat): nat { if d >= 128 then 1 else 0 }

  function CarryTop(d: nat): nat { if d >= 128 then 128 else 0 }

  function CarryLow(d: nat): nat { if d >= 128 then 127 else 0 }

  function Low(d: nat): nat { d % 128 }

  function Full(d: nat): nat { if d >= 128 then 127 else d }

  lemma {:induction false} SumsBelow(v: Lanes, w: Lanes)
    requires |v| == |w| && AllBelow(v, 128) && AllBelow(w, 128)
    ensures AllBelow(AddLanes(v, w), 256)
    decreases |v|
  {
    if v != [] {
      SumsBelow(v[1..], w[1..]);
    }
  }

  lemma {:induction false} FullIsSaturated(v: Lanes)
    ensures AllBelow(v, 256) ==> Each(Full, v) == Each(Saturate, v)
    ensures AllBelow(v, 256) ==> AllBelow(Each(Saturate, v), 128)
    decreases |v|
  {
    if v != [] {
      FullIsSaturated(v[1..]);
    }
  }

  lemma Spread(s: nat, low: nat, c: nat)
    requires s == 128 * c && low == 127 * c
    ensures s - s / 128 == low
  {
  }

  lemma CarriesScale(d: Lanes)
    requires AllBelow(d, 256)
    ensures Pack(8, Each(CarryTop, d)) == 128 * Pack(8, Each(Carry, d))
    ensures Pack(8, Each(CarryLow, d)) == 127 * Pack(8, Each(Carry, d))
  {
    EachScale(128, Carry, CarryTop, d, 256);
    EachScale(127, Carry, CarryLow, d, 256);
    PackScale(8, 128, Each(Carry, d));
    PackScale(8, 127, Each(Carry, d));
  }

  /** The mask for the top bits, and what is left when it is spread over the low ones. */
  lemma SpreadCarries(d: Lanes)
    requires |d| == 8 && AllBelow(d, 256)
    ensures And64Of(d)
    ensures
      var s := Pack(8, Each(CarryTop, d));
      s < TWO64 && Pack(8, Each(CarryLow, d)) < TWO64 && s - s / 128 == Pack(8, Each(CarryLow, d))
  {
    EachBelow(CarryTop, d, 256, 256);
    EachBelow(CarryLow, d, 256, 256);
    BytesMakeWord(Each(CarryTop, d));
    BytesMakeWord(Each(CarryLow, d));
    CarriesScale(d);
    Spread(Pack(8, Each(CarryTop, d)), Pack(8, Each(CarryLow, d)), Pack(8, Each(Carry, d)));
    TopMask(d);
  }

  ghost predicate And64Of(d: Lanes)
    requires |d| == 8
  {
    Bits(AndGate, 64, Pack(8, d), TOP_BITS) == Pack(8, Each(CarryTop, d))
  }

  lemma TopMask(d: Lanes)
    requires |d| == 8 && AllBelow(d, 256)
    ensures And64Of(d)
  {
    var mask := Same(128, 8);
    SameBytes(128);
    assert Pack(8, mask) == TOP_BITS;
    SameBelow(128, 8, 256);
    ByteBits(AndGate, d, mask);
    TopLanes(d);
    EachIdentity(d);
    EachConstant(128, d);
  }

  lemma TopLanes(d: Lanes)
    requires AllBelow(d, 256)
    ensures BitLanes(AndGate, 8, Each(x => x, d), Each(_ => 128, d)) == Each(CarryTop, d)
  {
    forall x: nat | x < 256
      ensures Bits(AndGate, 8, x, 128) == CarryTop(x)
    {
      Powers();
      TopBit(7, x);
    }
    EachBits(AndGate, 8, x => x, _ => 128, CarryTop, d, 256);
  }

  lemma MergeCarries(d: Lanes)
    requires |d| == 8 && AllBelow(d, 256)
    ensures Bits(XorGate, 64, Pack(8, d), Pack(8, Each(CarryTop, d))) == Pack(8, Each(Low, d))
    ensures Bits(OrGate, 64, Pack(8, Each(Low, d)), Pack(8, Each(CarryLow, d))) == Pack(8, Each(Full, d))
  {
    EachBelow(CarryTop, d, 256, 256);
    EachBelow(CarryLow, d, 256, 256);
    EachBelow(Low, d, 256, 256);
    ByteBits(XorGate, d, Each(CarryTop, d));
    ByteBits(OrGate, Each(Low, d), Each(CarryLow, d));
    forall x: nat | x < 256
      ensures Bits(XorGate, 8, x, CarryTop(x)) == Low(x) && Bits(OrGate, 8, Low(x), CarryLow(x)) == Full(x)
    {
      Powers();
      TopBit(7, x);
      SaturateByte(x);
    }
    EachIdentity(d);
    EachBits(XorGate, 8, x => x, CarryTop, Low, d, 256);
    EachBits(OrGate, 8, Low, CarryLow, Full, d, 256);
  }

  /** The packed sum is the saturating sum of every lane. */
  lemma AddSatIsPlain(v: Lanes, w: Lanes)
    requires Counters(v) && Counters(w)
    ensures Pack(8, v) < TWO64 && Pack(8, w) < TWO64 && Counters(PlainAdd(v, w))
    ensures ParallelAddSat(Pack(8, v), Pack(8, w)) == Pack(8, PlainAdd(v, w))
  {
    var d := AddLanes(v, w);
    var x, y, r := Pack(8, v), Pack(8, w), Pack(8, d);
    BelowMore(v, 128, 256);
    BelowMore(w, 128, 256);
    BytesMakeWord(v);
    BytesMakeWord(w);
    SumsBelow(v, w);
    BytesMakeWord(d);
    PackAdd(8, v, w);
    SpreadCarries(d);
    MergeCarries(d);
    FullIsSaturated(d);
    BytesMakeLow(d);
    AddSatSteps(x, y, r, Pack(8, Each(CarryTop, d)), Pack(8, Each(Low, d)), Pack(8, Each(CarryLow, d)), Pack(8, Each(Full, d)));
  }

  lemma BytesMakeLow(d: Lanes)
    requires |d| == 8 && AllBelow(d, 256)
    ensures Pack(8, Each(Low, d)) < TWO64
  {
    EachBelow(Low, d, 256, 256);
    BytesMakeWord(Each(Low, d));
  }

  /** The steps of the sum, one equation each. */
  lemma AddSatSteps(x: uint64, y: uint64, r: uint64, s: uint64, low: uint64, spread: uint64, full: nat)
    requires x + y == r && Bits(AndGate, 64, r, TOP_BITS) == s
    requires Bits(XorGate, 64, r, s) == low && s - s / 128 == spread && Bits(OrGate, 64, low, spread) == full
    ensures ParallelAddSat(x, y) == full
  {
    SumFits(x, y);
    DifferenceFits(s, s / 128);
  }

  lemma SumFits(x: uint64, y: uint64)
    requires x + y < TWO64
    ensures Add64(x, y) == x + y
  {
  }

  lemma DifferenceFits(x: uint64, y: uint64)
    requires y <= x
    ensures Sub64(x, y) == x - y
  {
  }

  lemma ProductFits(x: uint64, y: uint64)
    requires x * y < TWO64
    ensures Mul64(x, y) == x * y
  {
  }

  lemma {:induction false} BelowMore(v: Lanes, a: nat, b: nat)
    requires AllBelow(v, a) && a <= b
    ensures AllBelow(v, b)
    decreases |v|
  {
    if v != [] {
      BelowMore(v[1..], a, b);
    }
  }

  // ----- the product -----

  function Evens(v: Lanes): (r: Lanes)
    ensures |r| == |v| / 2
  {
    if |v| < 2 then [] else [v[0]] + Evens(v[2..])
  }

  function Odds(v: Lanes): (r: Lanes)
    ensures |r| == |v| / 2
  {
    if |v| < 2 then [] else [v[1]] + Odds(v[2..])
  }

  /** Bytes in pairs: the first one low, the second one high. */
  function Pairs(v: Lanes): (r: Lanes)
    ensures |r| == |v| / 2
  {
    if |v| < 2 then [] else [v[0] + 256 * v[1]] + Pairs(v[2..])
  }

  lemma {:induction false} PackPairs(v: Lanes)
    requires |v| % 2 == 0
    ensures Pack(8, v) == Pack(16, Pairs(v))
    decreases |v|
  {
    if v != [] {
      PackPairs(v[2..]);
      var lo, hi, rest := v[0], v[1], Pack(8, v[2..]);
      assert v[1..][1..] == v[2..];
      UpAdd(8, hi, Up(8, rest));
      UpTwice(8, 8, rest);
      Powers();
      UpIsTimes(8, hi);
    }
  }

  lemma {:induction false} EvensBelow(v: Lanes, bound: nat)
    requires AllBelow(v, bound)
    ensures AllBelow(Evens(v), bound) && AllBelow(Odds(v), bound)
    decreases |v|
  {
    if |v| >= 2 {
      assert v[1..][1..] == v[2..];
      EvensBelow(v[2..], bound);
    }
  }

  lemma {:induction false} PairsBelow(v: Lanes)
    requires AllBelow(v, 256)
    ensures AllBelow(Pairs(v), 0x1_0000)
    decreases |v|
  {
    if |v| >= 2 {
      assert v[1..][1..] == v[2..];
      PairsBelow(v[2..]);
    }
  }

  /** The low seven bits of two bytes; `k` is the width of a byte. */
  lemma LowOfTwo(k: nat, d: nat, lo: nat, hi: nat)
    requires k == 8 && lo < 256 && hi < 256 && d == lo + 256 * hi
    ensures Bits(AndGate, k + k, d, 127) == d % 128 == lo % 128
  {
    Powers();
    UpIsTimes(k, hi);
    UpIsTimes(k, 0);
    BitsSplit(AndGate, k, k, lo, 127, hi, 0);
    BitsZero(k, hi);
    LowBits(lo);
    SameLow(d, lo, hi);
  }

  lemma SameLow(d: nat, lo: nat, hi: nat)
    requires d == lo + 256 * hi
    ensures d % 128 == lo % 128
  {
  }

  lemma MaskPair(k: nat, n: nat, a: nat, b: nat)
    requires k == 8 && n == k + k && a < 128 && b < 128
    ensures Bits(AndGate, n, a + 256 * b, 127) == a
  {
    LowOfTwo(k, a + 256 * b, a, b);
  }

  /** The mask keeps every other lane. */
  lemma {:induction false} MaskPairs(v: Lanes, n: nat)
    requires AllBelow(v, 128) && |v| == 2 * n
    ensures BitLanes(AndGate, 16, Pairs(v), Same(127, n)) == Evens(v)
    decreases n
  {
    if n > 0 {
      assert v[1..][1..] == v[2..];
      MaskPairs(v[2..], n - 1);
      MaskPair(8, 16, v[0], v[1]);
      assert Same(127, n)[1..] == Same(127, n - 1);
    }
  }

  lemma EvenMask(v: Lanes)
    requires Counters(v)
    ensures Pack(8, v) < TWO64 && And64(Pack(8, v), EVEN_LANES) == Pack(16, Evens(v))
  {
    BelowMore(v, 128, 256);
    BytesMakeWord(v);
    PackPairs(v);
    PairsBelow(v);
    SameBytes(127);
    SameBelow(127, 4, 0x1_0000);
    PairBits(AndGate, Pairs(v), Same(127, 4));
    MaskPairs(v, 4);
  }

  lemma {:induction false} PackZero(k: nat, v: Lanes)
    ensures Pack(k, v + [0]) == Pack(k, v)
    decreases |v|
  {
    if v == [] {
      assert ([] + [0])[1..] == [];
      UpIsTimes(k, 0);
    } else {
      assert (v + [0])[1..] == v[1..] + [0];
      PackZero(k, v[1..]);
    }
  }

  /** A shift by eight bits drops the first lane. */
  lemma ShiftLane(v: Lanes)
    requires Counters(v)
    ensures Counters(v[1..] + [0]) && Pack(8, v) / 256 == Pack(8, v[1..] + [0]) && Evens(v[1..] + [0]) == Odds(v)
  {
    var w := v[1..] + [0];
    PackZero(8, v[1..]);
    UpIsTimes(8, Pack(8, v[1..]));
    Powers();
    BelowZero(v[1..], 128);
    ShiftedEvens(v);
  }

  lemma {:induction false} ShiftedEvens(v: Lanes)
    requires |v| % 2 == 0 && v != []
    ensures Evens(v[1..] + [0]) == Odds(v)
    decreases |v|
  {
    var w := v[1..] + [0];
    if |v| == 2 {
      assert w[2..] == [] && v[2..] == [];
    } else {
      assert w[2..] == v[2..][1..] + [0];
      ShiftedEvens(v[2..]);
    }
  }

  lemma {:induction false} BelowZero(v: Lanes, bound: nat)
    requires AllBelow(v, bound) && bound > 0
    ensures AllBelow(v + [0], bound)
    decreases |v|
  {
    if v != [] {
      assert (v + [0])[1..] == v[1..] + [0];
      BelowZero(v[1..], bound);
    }
  }

  // ----- the product, two words of four wide lanes -----

  const PRODUCTS := 16130

  function CarryWide(d: nat): nat { 256 * CarryTop(d) }

  function LowWide(d: nat): nat { 256 * Low(d) }

  function Raise(d: nat): nat { d + 0x7f80 }

  lemma {:induction false} ProductsBelow(v: Lanes, b: nat)
    requires AllBelow(v, 128) && b <= 127
    ensures AllBelow(ScaleLanes(b, v), PRODUCTS)
    decreases |v|
  {
    if v != [] {
      ProductsBelow(v[1..], b);
      assert b * v[0] <= 127 * 127;
    }
  }

  lemma {:induction false} ScaledHalves(v: Lanes, b: nat)
    ensures Evens(ScaleLanes(b, v)) == ScaleLanes(b, Evens(v)) && Odds(ScaleLanes(b, v)) == ScaleLanes(b, Odds(v))
    decreases |v|
  {
    if |v| >= 2 {
      ScaledHalves(v[2..], b);
      assert v[1..][1..] == v[2..];
      assert ScaleLanes(b, v)[2..] == ScaleLanes(b, v[2..]);
    }
  }

  /** Four products in one word. */
  lemma HalfProducts(half: Lanes, b: nat)
    requires |half| == 4 && AllBelow(half, 128) && b <= 127
    ensures Pack(16, half) < TWO64 && Pack(16, ScaleLanes(b, half)) < TWO64
    ensures Mul64(b, Pack(16, half)) == Pack(16, ScaleLanes(b, half))
  {
    BelowMore(half, 128, 0x1_0000);
    PairsMakeWord(half);
    ProductsBelow(half, b);
    BelowMore(ScaleLanes(b, half), PRODUCTS, 0x1_0000);
    PairsMakeWord(ScaleLanes(b, half));
    PackScale(16, b, half);
    ProductFits(b, Pack(16, half));
  }

  lemma {:induction false} RaiseLanes(p: Lanes)
    ensures AddLanes(p, Same(0x7f80, |p|)) == Each(Raise, p)
    decreases |p|
  {
    if p != [] {
      RaiseLanes(p[1..]);
    }
  }

  lemma {:induction false} RaisedTop(p: Lanes)
    requires AllBelow(p, PRODUCTS)
    ensures BitLanes(AndGate, 16, Each(Raise, p), Same(0x8000, |p|)) == Each(CarryWide, p)
    decreases |p|
  {
    if p != [] {
      RaisedTop(p[1..]);
      PowersOf15();
      TopBit(15, Raise(p[0]));
    }
  }

  lemma PowersOf15()
    ensures Pow2(15) == 0x8000
  {
    WidePowers();
    assert Pow2(16) == 2 * Pow2(15);
  }

  lemma RaisedWord(p: Lanes)
    requires |p| == 4 && AllBelow(p, PRODUCTS)
    ensures AllBelow(Each(Raise, p), 0x1_0000)
    ensures Pack(16, p) < TWO64 && Add64(Pack(16, p), 0x7f807f807f807f80) == Pack(16, Each(Raise, p))
  {
    BelowMore(p, PRODUCTS, 0x1_0000);
    PairsMakeWord(p);
    SameBytes(0x7f80);
    PackAdd(16, p, Same(0x7f80, 4));
    RaiseLanes(p);
    EachBelow(Raise, p, PRODUCTS, 0x1_0000);
    PairsMakeWord(Each(Raise, p));
    SumFits(Pack(16, p), 0x7f807f807f807f80);
  }

  /** Which of four products need more than seven bits. */
  lemma HalfCarries(p: Lanes)
    requires |p| == 4 && AllBelow(p, PRODUCTS)
    ensures Pack(16, p) < TWO64
    ensures And64(Add64(Pack(16, p), 0x7f807f807f807f80), 0x8000800080008000) == Pack(16, Each(CarryWide, p))
  {
    RaisedWord(p);
    SameBytes(0x8000);
    SameBelow(0x8000, 4, 0x1_0000);
    PairBits(AndGate, Each(Raise, p), Same(0x8000, 4));
    RaisedTop(p);
  }

  lemma LowOfWide(d: nat)
    requires d < 0x1_0000
    ensures Bits(AndGate, 16, d, 127) == Low(d)
  {
    LowOfTwo(8, d, d % 256, d / 256);
  }

  lemma {:induction false} LowLanes(p: Lanes)
    requires AllBelow(p, PRODUCTS)
    ensures BitLanes(AndGate, 16, p, Same(127, |p|)) == Each(Low, p)
    decreases |p|
  {
    if p != [] {
      LowLanes(p[1..]);
      LowOfWide(p[0]);
    }
  }

  /** The low seven bits of four products. */
  lemma HalfLows(p: Lanes)
    requires |p| == 4 && AllBelow(p, PRODUCTS)
    ensures Pack(16, p) < TWO64 && And64(Pack(16, p), EVEN_LANES) == Pack(16, Each(Low, p))
  {
    BelowMore(p, PRODUCTS, 0x1_0000);
    PairsMakeWord(p);
    SameBytes(127);
    SameBelow(127, 4, 0x1_0000);
    PairBits(AndGate, p, Same(127, 4));
    LowLanes(p);
  }

  /** Moving four bytes up, or down, by eight bits. */
  lemma MoveBytes(f: nat -> nat, g: nat -> nat, p: Lanes)
    requires |p| == 4 && AllBelow(p, PRODUCTS)
    requires forall d: nat :: d < PRODUCTS ==> f(d) < 256 && 256 * f(d) == g(d)
    ensures Pack(16, Each(f, p)) < TWO64 && Pack(16, Each(g, p)) < TWO64
    ensures Mul64(256, Pack(16, Each(f, p))) == Pack(16, Each(g, p)) && Pack(16, Each(g, p)) / 256 == Pack(16, Each(f, p))
  {
    EachScale(256, f, g, p, PRODUCTS);
    PackScale(16, 256, Each(f, p));
    EachBelow(f, p, PRODUCTS, 0x1_0000);
    EachBelow(g, p, PRODUCTS, 0x1_0000);
    PairsMakeWord(Each(f, p));
    PairsMakeWord(Each(g, p));
    ProductFits(256, Pack(16, Each(f, p)));
  }

  lemma OnePair(a: nat, c: nat)
    requires a < 256 && c < 256
    ensures Bits(OrGate, 16, 256 * c, a) == a + 256 * c
  {
    TwoBytes(OrGate, 0, a, c, 0);
    NoBits(a);
    NoBits(c);
  }

  lemma {:induction false} InterleaveLanes(f: nat -> nat, g: nat -> nat, z: Lanes)
    requires |z| % 2 == 0 && AllBelow(z, PRODUCTS)
    requires forall d: nat :: d < PRODUCTS ==> f(d) < 256 && 256 * f(d) == g(d)
    ensures BitLanes(OrGate, 16, Each(g, Odds(z)), Each(f, Evens(z))) == Pairs(Each(f, z))
    decreases |z|
  {
    if z != [] {
      assert z[1..][1..] == z[2..];
      InterleaveLanes(f, g, z[2..]);
      EachOfTwo(f, z);
      OnePair(f(z[0]), f(z[1]));
      BitLanesCons(g(z[1]), Each(g, Odds(z[2..])), f(z[0]), Each(f, Evens(z[2..])));
    }
  }

  lemma EachOfTwo(f: nat -> nat, z: Lanes)
    requires |z| >= 2
    ensures Each(f, z)[0] == f(z[0]) && Each(f, z)[1] == f(z[1]) && Each(f, z)[2..] == Each(f, z[2..])
  {
    assert z[1..][1..] == z[2..];
  }

  lemma BitLanesCons(c: nat, cs: Lanes, a: nat, rest: Lanes)
    requires |cs| == |rest|
    ensures BitLanes(OrGate, 16, [c] + cs, [a] + rest) == [Bits(OrGate, 16, c, a)] + BitLanes(OrGate, 16, cs, rest)
  {
    assert ([c] + cs)[1..] == cs && ([a] + rest)[1..] == rest;
  }

  /** The two words put together again: byte `i` belongs to product `i`. */
  lemma Interleave(f: nat -> nat, g: nat -> nat, z: Lanes)
    requires |z| == 8 && AllBelow(z, PRODUCTS)
    requires forall d: nat :: d < PRODUCTS ==> f(d) < 256 && 256 * f(d) == g(d)
    ensures Bits(OrGate, 64, Pack(16, Each(g, Odds(z))), Pack(16, Each(f, Evens(z)))) == Pack(8, Each(f, z))
    ensures Pack(8, Each(f, z)) < TWO64
  {
    EvensBelow(z, PRODUCTS);
    EachBelow(g, Odds(z), PRODUCTS, 0x1_0000);
    EachBelow(f, Evens(z), PRODUCTS, 0x1_0000);
    InterleaveLanes(f, g, z);
    EachBelow(f, z, PRODUCTS, 256);
    JoinLanes(Each(g, Odds(z)), Each(f, Evens(z)), Each(f, z));
  }

  lemma JoinLanes(hi: Lanes, lo: Lanes, z: Lanes)
    requires |hi| == |lo| == 4 && AllBelow(hi, 0x1_0000) && AllBelow(lo, 0x1_0000) && |z| == 8 && AllBelow(z, 256)
    requires BitLanes(OrGate, 16, hi, lo) == Pairs(z)
    ensures Bits(OrGate, 64, Pack(16, hi), Pack(16, lo)) == Pack(8, z) < TWO64
  {
    PairBits(OrGate, hi, lo);
    PackPairs(z);
    BytesMakeWord(z);
  }

  lemma SpreadProducts(z: Lanes)
    requires |z| == 8 && AllBelow(z, PRODUCTS)
    ensures
      var s := Pack(8, Each(CarryTop, z));
      s < TWO64 && Pack(8, Each(CarryLow, z)) < TWO64 && s - s / 128 == Pack(8, Each(CarryLow, z))
  {
    EachBelow(CarryTop, z, PRODUCTS, 256);
    EachBelow(CarryLow, z, PRODUCTS, 256);
    BytesMakeWord(Each(CarryTop, z));
    BytesMakeWord(Each(CarryLow, z));
    EachScale(128, Carry, CarryTop, z, PRODUCTS);
    EachScale(127, Carry, CarryLow, z, PRODUCTS);
    PackScale(8, 128, Each(Carry, z));
    PackScale(8, 127, Each(Carry, z));
    Spread(Pack(8, Each(CarryTop, z)), Pack(8, Each(CarryLow, z)), Pack(8, Each(Carry, z)));
  }

  lemma MaskProducts(z: Lanes)
    requires |z| == 8 && AllBelow(z, PRODUCTS)
    ensures Bits(OrGate, 64, Pack(8, Each(Low, z)), Pack(8, Each(CarryLow, z))) == Pack(8, Each(Saturate, z))
  {
    EachBelow(Low, z, PRODUCTS, 256);
    EachBelow(CarryLow, z, PRODUCTS, 256);
    ByteBits(OrGate, Each(Low, z), Each(CarryLow, z));
    MaskLanes(z);
  }

  lemma MaskLanes(z: Lanes)
    requires AllBelow(z, PRODUCTS)
    ensures BitLanes(OrGate, 8, Each(Low, z), Each(CarryLow, z)) == Each(Saturate, z)
  {
    forall x: nat | x < PRODUCTS
      ensures Bits(OrGate, 8, Low(x), CarryLow(x)) == Saturate(x)
    {
      MaskLane(x, x % 128);
    }
    EachBits(OrGate, 8, Low, CarryLow, Saturate, z, PRODUCTS);
  }

  lemma MaskLane(x: nat, low: nat)
    requires low == x % 128
    ensures Bits(OrGate, 8, low, CarryLow(x)) == Saturate(x)
  {
    OrLow(low);
  }

  lemma {:induction false} ClippedFactor(v: Lanes, b: nat)
    ensures Each(Saturate, ScaleLanes(if b < 127 then b else 127, v)) == PlainMul(v, b)
    decreases |v|
  {
    if v != [] {
      ClippedFactor(v[1..], b);
      if v[0] >= 1 && b >= 127 {
        assert b * v[0] >= b && 127 * v[0] >= 127;
      }
    }
  }

  /** The four products of the even lanes, or of the odd ones, with their carries and low bits. */
  lemma HalfWords(half: Lanes, b: nat, p: Lanes)
    requires |half| == 4 && AllBelow(half, 128) && b <= 127 && p == ScaleLanes(b, half)
    ensures AllBelow(p, PRODUCTS)
    ensures Pack(16, half) < TWO64 && Pack(16, p) < TWO64 && Mul64(b, Pack(16, half)) == Pack(16, p)
    ensures And64(Add64(Pack(16, p), 0x7f807f807f807f80), 0x8000800080008000) == Pack(16, Each(CarryWide, p))
    ensures And64(Pack(16, p), EVEN_LANES) == Pack(16, Each(Low, p)) < TWO64
    ensures Pack(16, Each(CarryTop, p)) < TWO64 && Pack(16, Each(CarryWide, p)) / 256 == Pack(16, Each(CarryTop, p))
    ensures Pack(16, Each(LowWide, p)) < TWO64 && Mul64(256, Pack(16, Each(Low, p))) == Pack(16, Each(LowWide, p))
  {
    ProductsBelow(half, b);
    HalfProducts(half, b);
    HalfCarries(p);
    HalfLows(p);
    MoveBytes(CarryTop, CarryWide, p);
    MoveBytes(Low, LowWide, p);
  }

  lemma TakeHalves(v: Lanes)
    requires Counters(v)
    ensures AllBelow(Evens(v), 128) && AllBelow(Odds(v), 128)
    ensures Pack(8, v) < TWO64 && And64(Pack(8, v), EVEN_LANES) == Pack(16, Evens(v))
    ensures And64(Pack(8, v) / 256, EVEN_LANES) == Pack(16, Odds(v))
  {
    EvensBelow(v, 128);
    EvenMask(v);
    ShiftLane(v);
    EvenMask(v[1..] + [0]);
  }

  lemma JoinHalves(z: Lanes)
    requires |z| == 8 && AllBelow(z, PRODUCTS)
    ensures Bits(OrGate, 64, Pack(16, Each(CarryWide, Odds(z))), Pack(16, Each(CarryTop, Evens(z)))) == Pack(8, Each(CarryTop, z))
    ensures Bits(OrGate, 64, Pack(16, Each(LowWide, Odds(z))), Pack(16, Each(Low, Evens(z)))) == Pack(8, Each(Low, z))
    ensures Pack(8, Each(CarryTop, z)) < TWO64 && Pack(8, Each(Low, z)) < TWO64
  {
    Interleave(CarryTop, CarryWide, z);
    Interleave(Low, LowWide, z);
  }

  lemma ProductCounters(v: Lanes, b: nat)
    requires Counters(v)
    ensures Counters(PlainMul(v, b))
  {
    var bs := if b < 127 then b else 127;
    ProductsBelow(v, bs);
    EachBelow(Saturate, ScaleLanes(bs, v), PRODUCTS, 128);
    ClippedFactor(v, b);
  }

  /** The words of the two halves of a product, and of their carries. */
  lemma ProductWords(v: Lanes, b: nat, z: Lanes)
    requires Counters(v) && b <= 127 && z == ScaleLanes(b, v)
    ensures Pack(8, v) < TWO64 && Pack(16, Evens(z)) < TWO64 && Pack(16, Odds(z)) < TWO64
    ensures Mul64(b, And64(Pack(8, v), EVEN_LANES)) == Pack(16, Evens(z))
    ensures Mul64(b, And64(Pack(8, v) / 256, EVEN_LANES)) == Pack(16, Odds(z))
    ensures And64(Add64(Pack(16, Evens(z)), 0x7f807f807f807f80), 0x8000800080008000) == Pack(16, Each(CarryWide, Evens(z)))
    ensures And64(Add64(Pack(16, Odds(z)), 0x7f807f807f807f80), 0x8000800080008000) == Pack(16, Each(CarryWide, Odds(z)))
    ensures And64(Pack(16, Evens(z)), EVEN_LANES) == Pack(16, Each(Low, Evens(z))) < TWO64
    ensures And64(Pack(16, Odds(z)), EVEN_LANES) == Pack(16, Each(Low, Odds(z))) < TWO64
    ensures Pack(16, Each(CarryTop, Evens(z))) < TWO64
    ensures Pack(16, Each(CarryWide, Evens(z))) / 256 == Pack(16, Each(CarryTop, Evens(z)))
    ensures Pack(16, Each(LowWide, Odds(z))) < TWO64 && Mul64(256, Pack(16, Each(Low, Odds(z)))) == Pack(16, Each(LowWide, Odds(z)))
  {
    ScaledHalves(v, b);
    TakeHalves(v);
    HalfWords(Evens(v), b, Evens(z));
    HalfWords(Odds(v), b, Odds(z));
  }

  /** The packed product is the saturating product of every lane. */
  lemma MulSatIsPlain(v: Lanes, b: nat)
    requires Counters(v)
    ensures Pack(8, v) < TWO64 && Counters(PlainMul(v, b)) && ParallelMulSat(Pack(8, v), b) == Pack(8, PlainMul(v, b))
  {
    var bs := if b < 127 then b else 127;
    var z := ScaleLanes(bs, v);
    ProductsBelow(v, bs);
    ProductWords(v, bs, z);
    ClippedFactor(v, b);
    ProductCounters(v, b);
    SpreadProducts(z);
    MaskProducts(z);
    JoinHalves(z);
    MulSatSteps(
      Pack(8, v), b, Pack(16, Evens(z)), Pack(16, Odds(z)),
      Pack(16, Each(CarryWide, Evens(z))), Pack(16, Each(CarryWide, Odds(z))), Pack(16, Each(CarryTop, Evens(z))),
      Pack(16, Each(Low, Evens(z))), Pack(16, Each(Low, Odds(z))), Pack(16, Each(LowWide, Odds(z))),
      Pack(8, Each(CarryTop, z)), Pack(8, Each(Low, z)), Pack(8, Each(CarryLow, z)), Pack(8, Each(Saturate, z)));
  }

  /** The steps of the product, one equation each. */
  lemma MulSatSteps(
    a: uint64, b: nat, l: uint64, h: uint64, lc: uint64, hc: uint64, lc8: uint64,
    ll: uint64, hl: uint64, hl8: uint64, s: uint64, r: uint64, spread: uint64, full: nat)
    requires
      var bs := if b < 127 then b else 127;
      Mul64(bs, And64(a, EVEN_LANES)) == l && Mul64(bs, And64(a / 256, EVEN_LANES)) == h
    requires And64(Add64(l, 0x7f807f807f807f80), 0x8000800080008000) == lc && lc / 256 == lc8
    requires And64(Add64(h, 0x7f807f807f807f80), 0x8000800080008000) == hc
    requires And64(l, EVEN_LANES) == ll && And64(h, EVEN_LANES) == hl && Mul64(256, hl) == hl8
    requires Bits(OrGate, 64, hc, lc8) == s && Bits(OrGate, 64, hl8, ll) == r
    requires s - s / 128 == spread && Bits(OrGate, 64, r, spread) == full
    ensures ParallelMulSat(a, b) == full
  {
    DifferenceFits(s, s / 128);
  }
}
