/** What a discount means: the instructions saved when the variable is a literal. */
module CostDiscounts {
  import opened PackedLanes
  import opened CostModel
  import opened CostAlgebra

  predicate IsFlagged(m: Mask, flags: seq<bool>) {
    m.Variable? && m.i < |flags| && flags[m.i]
  }

  /** The same cost with the flagged variables replaced by literals. */
  function Substituted(b: Build, flags: seq<bool>): Build {
    match b
    case Base(cost, mask) => Base(cost, if IsFlagged(mask, flags) then AllConstant else mask)
    case Sum(x, y) => Sum(Substituted(x, flags), Substituted(y, flags))
    case Product(x, k) => Product(Substituted(x, flags), k)
    case Folded(x, y) => Folded(Substituted(x, flags), Substituted(y, flags))
  }

  function Lanes8(b: Build): (v: Lanes)
    ensures |v| == 8
  {
    PlainOfBuild(b).lanes
  }

  function MaskOf(b: Build): Mask {
    PlainOfBuild(b).mask
  }

  function PriceOf(b: Build, flags: seq<bool>): int {
    Price(Lanes8(b), flags)
  }

  function CostOf(b: Build): nat {
    Lanes8(b)[0]
  }

  lemma NoDiscount(b: Build)
    ensures PriceOf(b, []) == CostOf(b)
  {
  }

  ghost predicate AtMostOne(flags: seq<bool>) {
    forall i, j :: 0 <= i < j < |flags| && j < 7 ==> !(flags[i] && flags[j])
  }

  // ----- discounts are exact below saturation -----

  lemma {:induction false} SelectedSum(v: Lanes, w: Lanes, flags: seq<bool>)
    requires |v| == |w| && Total(v) + Total(w) < 127
    ensures Selected(PlainAdd(v, w), flags) == Selected(v, flags) + Selected(w, flags)
    decreases |v|
  {
    if v != [] && flags != [] {
      SelectedSum(v[1..], w[1..], flags[1..]);
      assert PlainAdd(v, w)[1..] == PlainAdd(v[1..], w[1..]);
    }
  }

  lemma {:induction false} SelectedProduct(v: Lanes, k: nat, flags: seq<bool>)
    requires k * Total(v) < 127
    ensures Selected(PlainMul(v, k), flags) == k * Selected(v, flags)
    decreases |v|
  {
    if v != [] && flags != [] {
      DistributeSum(k, v[0], Total(v[1..]));
      SelectedProduct(v[1..], k, flags[1..]);
      ProductLanes(v, k);
      DistributeSum(k, if flags[0] then v[0] else 0, Selected(v[1..], flags[1..]));
    }
  }

  lemma DistributeSum(k: nat, x: nat, y: nat)
    ensures k * (x + y) == k * x + k * y
    ensures k * x >= 0 && k * y >= 0
  {
  }

  lemma ProductLanes(v: Lanes, k: nat)
    requires v != []
    ensures PlainMul(v, k) == [Saturate(k * v[0])] + PlainMul(v[1..], k)
  {
  }

  lemma PriceSum(v: Lanes, w: Lanes, flags: seq<bool>)
    requires Covered(v) && Covered(w) && v[0] + w[0] < 127
    ensures PlainAdd(v, w)[0] == v[0] + w[0]
    ensures Price(PlainAdd(v, w), flags) == Price(v, flags) + Price(w, flags)
  {
    SelectedSum(v[1..], w[1..], flags);
    assert PlainAdd(v, w)[1..] == PlainAdd(v[1..], w[1..]);
    assert PlainAdd(v, w)[0] == Saturate(v[0] + w[0]);
  }

  lemma PriceProduct(v: Lanes, k: nat, flags: seq<bool>)
    requires Covered(v) && v[0] < 127 && k * v[0] < 127
    ensures Price(PlainMul(v, k), flags) == k * Price(v, flags)
  {
    Monotone(k, Total(v[1..]), v[0]);
    SelectedProduct(v[1..], k, flags);
    ProductLanes(v, k);
    Distribute(k, v[0], Selected(v[1..], flags));
  }

  lemma Distribute(k: nat, x: int, y: int)
    ensures k * (x - y) == k * x - k * y
  {
  }

  lemma Monotone(k: nat, x: int, y: int)
    requires x <= y
    ensures k * x <= k * y
  {
  }

  lemma {:induction false} SelectedMark(m: Mask, first: nat, n: nat, flags: seq<bool>)
    requires m.Variable? && |flags| <= n
    ensures Selected(Marks(m, 1, first, n), flags) ==
            if first <= m.i + 1 < first + |flags| && flags[m.i + 1 - first] then 1 else 0
    decreases n
  {
    if n > 0 && flags != [] {
      SelectedMark(m, first + 1, n - 1, flags[1..]);
      assert Marks(m, 1, first, n)[1..] == Marks(m, 1, first + 1, n - 1);
    }
  }

  lemma {:induction false} SelectedZero(n: nat, flags: seq<bool>)
    ensures Selected(Same(0, n), flags) == 0
    decreases n
  {
    if n > 0 && flags != [] {
      SelectedZero(n - 1, flags[1..]);
      assert Same(0, n)[1..] == Same(0, n - 1);
    }
  }

  lemma {:induction false} SelectedShort(v: Lanes, flags: seq<bool>)
    requires |flags| >= |v|
    ensures Selected(v, flags) == Selected(v, flags[..|v|])
    decreases |v|
  {
    if v != [] {
      SelectedShort(v[1..], flags[1..]);
      assert flags[..|v|][1..] == flags[1..][..|v| - 1];
    }
  }

  /** Folding costs one instruction more, unless the operands are constant. */
  lemma ExtraPrice(m: Mask, flags: seq<bool>)
    ensures Covered(Extra(m)) && Extra(m)[0] <= 1
    ensures Price(Extra(m), flags) == if m.AllConstant? || IsFlagged(m, flags) then 0 else 1
  {
    ExtraWord(m);
    var rest := Extra(m)[1..];
    if m.AllConstant? {
      assert rest == Same(0, 7);
      TotalZero(7);
      SelectedZero(7, flags);
    } else {
      assert rest == Marks(m, 1, 1, 7);
      OneMark(m, 1, 7);
      if m.Variable? {
        if |flags| > 7 {
          SelectedShort(rest, flags);
          SelectedMark(m, 1, 7, flags[..7]);
        } else {
          SelectedMark(m, 1, 7, flags);
        }
      } else {
        UniformMarks(m, 1, 1, 7);
        SelectedZero(7, flags);
      }
    }
  }

  // ----- the price is the cost with literals -----

  /** Flagged operands are literals after the substitution; with a single flag nothing else becomes one. */
  ghost predicate MasksAgree(b: Build, flags: seq<bool>) {
    var m, m' := MaskOf(b), MaskOf(Substituted(b, flags));
    && (m.AllConstant? || IsFlagged(m, flags) ==> m'.AllConstant?)
    && (AtMostOne(flags) && m'.AllConstant? ==> m.AllConstant? || IsFlagged(m, flags))
  }

  lemma {:induction false} MasksOfSubstitution(b: Build, flags: seq<bool>)
    ensures MasksAgree(b, flags)
    decreases b
  {
    match b
    case Base(_, _) =>
    case Sum(x, y) =>
    case Product(x, k) =>
    case Folded(x, y) =>
      MasksOfSubstitution(x, flags);
      MasksOfSubstitution(y, flags);
  }

  /** Wherever operands become literals together, there is one flagged variable that they share. */
  predicate Shared(b: Build, flags: seq<bool>) {
    match b
    case Base(_, _) => true
    case Sum(x, y) => Shared(x, flags) && Shared(y, flags)
    case Product(x, k) => k == 0 || Shared(x, flags)
    case Folded(x, y) =>
      && Shared(x, flags) && Shared(y, flags)
      && (MaskOf(Substituted(b, flags)).AllConstant? ==> MaskOf(b).AllConstant? || IsFlagged(MaskOf(b), flags))
  }

  lemma {:induction false} OneFlagIsShared(b: Build, flags: seq<bool>)
    requires AtMostOne(flags)
    ensures Shared(b, flags)
    decreases b
  {
    match b
    case Base(_, _) =>
    case Sum(x, y) =>
      OneFlagIsShared(x, flags);
      OneFlagIsShared(y, flags);
    case Product(x, _) =>
      OneFlagIsShared(x, flags);
    case Folded(x, y) =>
      OneFlagIsShared(x, flags);
      OneFlagIsShared(y, flags);
      MasksOfSubstitution(b, flags);
  }

  ghost predicate PriceAgrees(b: Build, flags: seq<bool>) {
    CostOf(b) < 127 ==>
      && CostOf(Substituted(b, flags)) <= PriceOf(b, flags)
      && (CostOf(Substituted(b, flags)) == PriceOf(b, flags) <==> Shared(b, flags))
  }

  lemma BaseAgrees(cost: nat, mask: Mask, flags: seq<bool>)
    ensures PriceAgrees(Base(cost, mask), flags)
  {
    SelectedZero(7, flags);
    assert First(Saturate(cost))[1..] == Same(0, 7);
  }

  lemma SumAgrees(x: Build, y: Build, flags: seq<bool>)
    requires PriceAgrees(x, flags) && PriceAgrees(y, flags)
    ensures PriceAgrees(Sum(x, y), flags)
  {
    var v, w := Lanes8(x), Lanes8(y);
    EveryCostIsPlain(x);
    EveryCostIsPlain(y);
    if v[0] + w[0] < 127 {
      PriceSum(v, w, flags);
    }
  }

  lemma ScaledPrice(v: Lanes, v': Lanes, k: nat, flags: seq<bool>)
    requires Covered(v) && |v'| == 8 && v[0] < 127 && k * v[0] < 127 && v'[0] <= Price(v, flags) && k > 0
    ensures PlainMul(v', k)[0] <= Price(PlainMul(v, k), flags)
    ensures v'[0] == Price(v, flags) <==> PlainMul(v', k)[0] == Price(PlainMul(v, k), flags)
  {
    ProductLanes(v', k);
    PriceProduct(v, k, flags);
    Scaled(k, v'[0], Price(v, flags));
    Monotone(k, Price(v, flags), v[0]);
  }

  lemma Scaled(k: nat, x: int, y: int)
    requires x <= y && k > 0
    ensures k * x <= k * y && (k * x == k * y <==> x == y)
  {
    if x < y {
      Monotone(k, x + 1, y);
      assert k * (x + 1) == k * x + k;
    }
  }

  lemma Unsaturated(v: Lanes, k: nat)
    requires |v| == 8 && PlainMul(v, k)[0] < 127 && k > 0
    ensures k * v[0] < 127 && v[0] < 127
  {
    ProductLanes(v, k);
    Monotone(v[0], 1, k);
  }

  lemma ProductAgrees(x: Build, k: nat, flags: seq<bool>)
    requires PriceAgrees(x, flags)
    ensures PriceAgrees(Product(x, k), flags)
  {
    var v, v' := Lanes8(x), Lanes8(Substituted(x, flags));
    EveryCostIsPlain(x);
    if k == 0 {
      ZeroProduct(v, flags);
      ZeroProduct(v', []);
    } else if PlainMul(v, k)[0] < 127 {
      Unsaturated(v, k);
      ScaledPrice(v, v', k, flags);
    }
  }

  lemma ZeroProduct(v: Lanes, flags: seq<bool>)
    requires |v| == 8
    ensures Price(PlainMul(v, 0), flags) == 0 && PlainMul(v, 0)[0] == 0
  {
    SelectedProduct(v[1..], 0, flags);
    ProductLanes(v, 0);
  }

  lemma BasePrice(b: Build, flags: seq<bool>)
    requires b.Base? && b.cost == 0
    ensures PriceOf(b, flags) == 0 && CostOf(b) == 0
  {
    SelectedZero(7, flags);
    assert First(0)[1..] == Same(0, 7);
  }

  lemma FoldCost(x: Build, y: Build)
    ensures CostOf(Folded(x, y)) == Saturate(CostOf(x) + CostOf(y) + if MaskOf(Folded(x, y)).AllConstant? then 0 else 1)
  {
    var v, w, e := Lanes8(x), Lanes8(y), Extra(MaskOf(Folded(x, y)));
    var s := PlainAdd(v, w);
    assert s[0] == Saturate(v[0] + w[0]);
    assert PlainAdd(s, e)[0] == Saturate(s[0] + e[0]);
  }

  lemma FoldPrice(x: Build, y: Build, flags: seq<bool>)
    requires CostOf(Folded(x, y)) < 127
    ensures
      var m := MaskOf(Folded(x, y));
      PriceOf(Folded(x, y), flags) == PriceOf(x, flags) + PriceOf(y, flags) + if m.AllConstant? || IsFlagged(m, flags) then 0 else 1
  {
    var v, w, m := Lanes8(x), Lanes8(y), MaskOf(Folded(x, y));
    EveryCostIsPlain(x);
    EveryCostIsPlain(y);
    FoldCost(x, y);
    SumCovered(v, w);
    ExtraPrice(m, flags);
    PriceSum(v, w, flags);
    PriceSum(PlainAdd(v, w), Extra(m), flags);
  }

  lemma FoldAgrees(x: Build, y: Build, flags: seq<bool>)
    requires PriceAgrees(x, flags) && PriceAgrees(y, flags)
    ensures PriceAgrees(Folded(x, y), flags)
  {
    FoldCost(x, y);
    FoldCost(Substituted(x, flags), Substituted(y, flags));
    MasksOfSubstitution(Folded(x, y), flags);
    if CostOf(Folded(x, y)) < 127 {
      FoldPrice(x, y, flags);
    }
  }

  lemma {:induction false} UnsaturatedPrice(b: Build, flags: seq<bool>)
    ensures PriceAgrees(b, flags)
    decreases b
  {
    match b
    case Base(cost, mask) =>
      BaseAgrees(cost, mask, flags);
    case Sum(x, y) =>
      UnsaturatedPrice(x, flags);
      UnsaturatedPrice(y, flags);
      SumAgrees(x, y, flags);
    case Product(x, k) =>
      UnsaturatedPrice(x, flags);
      ProductAgrees(x, k, flags);
    case Folded(x, y) =>
      UnsaturatedPrice(x, flags);
      UnsaturatedPrice(y, flags);
      FoldAgrees(x, y, flags);
  }

  // ----- what is left with literals, counted without saturation -----

  /** Nothing is left to compute once the flagged variables are literals. */
  predicate IsLiteral(b: Build, flags: seq<bool>) {
    match b
    case Base(_, mask) => mask.AllConstant? || IsFlagged(mask, flags)
    case Folded(x, y) => IsLiteral(x, flags) && IsLiteral(y, flags)
    case _ => false
  }

  /** The instructions that remain, however many they are. */
  function Remaining(b: Build, flags: seq<bool>): nat {
    match b
    case Base(cost, _) => cost
    case Sum(x, y) => Remaining(x, flags) + Remaining(y, flags)
    case Product(x, k) => k * Remaining(x, flags)
    case Folded(x, y) => Remaining(x, flags) + Remaining(y, flags) + if IsLiteral(b, flags) then 0 else 1
  }

  lemma {:induction false} LiteralMask(b: Build, flags: seq<bool>)
    ensures MaskOf(Substituted(b, flags)).AllConstant? <==> IsLiteral(b, flags)
    decreases b
  {
    match b
    case Folded(x, y) =>
      LiteralMask(x, flags);
      LiteralMask(y, flags);
    case _ =>
  }

  lemma SaturateSum(x: nat, y: nat)
    ensures Saturate(Saturate(x) + Saturate(y)) == Saturate(x + y)
  {
  }

  lemma SaturateProduct(x: nat, k: nat)
    ensures Saturate(k * Saturate(x)) == Saturate(k * x)
  {
    if k > 0 && x >= 127 {
      Monotone(k, 127, x);
      Monotone(127, 1, k);
    }
  }

  lemma ProductCost(x: Build, k: nat)
    ensures CostOf(Product(x, k)) == Saturate(k * CostOf(x))
  {
    ProductLanes(Lanes8(x), k);
  }

  lemma SumCost(x: Build, y: Build)
    ensures CostOf(Sum(x, y)) == Saturate(CostOf(x) + CostOf(y))
  {
  }

  /** The cost with literals is the number of the instructions that remain, up to saturation. */
  lemma {:induction false} CostIsRemaining(b: Build, flags: seq<bool>)
    ensures CostOf(Substituted(b, flags)) == Saturate(Remaining(b, flags))
    decreases b
  {
    match b
    case Base(_, _) =>
    case Sum(x, y) =>
      CostIsRemaining(x, flags);
      CostIsRemaining(y, flags);
      SumCost(Substituted(x, flags), Substituted(y, flags));
      SaturateSum(Remaining(x, flags), Remaining(y, flags));
    case Product(x, k) =>
      CostIsRemaining(x, flags);
      ProductCost(Substituted(x, flags), k);
      SaturateProduct(Remaining(x, flags), k);
    case Folded(x, y) =>
      CostIsRemaining(x, flags);
      CostIsRemaining(y, flags);
      FoldCost(Substituted(x, flags), Substituted(y, flags));
      LiteralMask(b, flags);
  }

  /**
   The price of a cost is never below the cost with the constant variables replaced by literals. Below saturation it
   is exactly that if and only if operands that become literals together share one such variable; a saturated
   baseline is not discounted, so that it is exact if and only if 127 or more instructions remain with literals.
   */
  lemma DiscountIsSaving(b: Build, flags: seq<bool>)
    ensures CostOf(Substituted(b, flags)) <= PriceOf(b, flags)
    ensures CostOf(Substituted(b, flags)) == PriceOf(b, flags) <==>
            if CostOf(b) < 127 then Shared(b, flags) else Remaining(b, flags) >= 127
  {
    UnsaturatedPrice(b, flags);
    EveryCostIsPlain(b);
    EveryCostIsPlain(Substituted(b, flags));
    CostIsRemaining(b, flags);
  }

  predicate IsVariable(b: Build, i: Which) {
    b.Base? && b.cost == 0 && b.mask.Variable? && b.mask.i == i
  }

  predicate IsConstant(b: Build) {
    b.Base? && b.cost == 0 && b.mask.AllConstant?
  }

  /** Two variables, and what they are when both are literals. */
  lemma PairOfVariables(x: Build, y: Build, flags: seq<bool>)
    requires IsVariable(x, 0) && IsVariable(y, 1) && |flags| >= 2 && flags[0] && flags[1]
    ensures MaskOf(Folded(x, y)) == NoVariable
    ensures var b := Substituted(Folded(x, y), flags); b.Folded? && IsConstant(b.left) && IsConstant(b.right)
  {
  }

  lemma ConstantCost(x: Build, y: Build)
    requires IsConstant(x) && IsConstant(y)
    ensures CostOf(Folded(x, y)) == 0
  {
    BasePrice(x, []);
    BasePrice(y, []);
    FoldCost(x, y);
  }

  lemma PlainFoldCost(x: Build, y: Build)
    requires CostOf(x) == CostOf(y) == 0 && !MaskOf(Folded(x, y)).AllConstant?
    ensures CostOf(Folded(x, y)) == 1
  {
    FoldCost(x, y);
  }

  lemma PlainFoldPrice(x: Build, y: Build, flags: seq<bool>, m: Mask)
    requires CostOf(Folded(x, y)) < 127 && m == MaskOf(Folded(x, y)) && !m.AllConstant? && !IsFlagged(m, flags)
    ensures PriceOf(Folded(x, y), flags) == PriceOf(x, flags) + PriceOf(y, flags) + 1
  {
    FoldPrice(x, y, flags);
  }

  /** With two constant variables the price may be too high: `x + y` folds, but neither discount knows it. */
  lemma TwoVariablesAreNotShared(x: Build, y: Build, flags: seq<bool>)
    requires IsVariable(x, 0) && IsVariable(y, 1) && |flags| >= 2 && flags[0] && flags[1]
    ensures CostOf(Substituted(Folded(x, y), flags)) == 0 && PriceOf(Folded(x, y), flags) == 1
  {
    var b := Substituted(Folded(x, y), flags);
    PairOfVariables(x, y, flags);
    ConstantCost(b.left, b.right);
    BasePrice(x, flags);
    BasePrice(y, flags);
    PlainFoldCost(x, y);
    PlainFoldPrice(x, y, flags, NoVariable);
  }

  lemma SubstitutedVariable(x: Build, y: Build, flags: seq<bool>)
    requires IsVariable(x, 0) && IsConstant(y) && |flags| >= 1 && flags[0]
    ensures !MaskOf(Folded(x, y)).AllConstant?
    ensures var b := Substituted(Folded(x, y), flags); b.Folded? && IsConstant(b.left) && IsConstant(b.right)
  {
  }

  lemma VariableCost(x: Build, y: Build)
    requires IsVariable(x, 0) && IsConstant(y) && !MaskOf(Folded(x, y)).AllConstant?
    ensures CostOf(Folded(x, y)) == 1
  {
    BasePrice(x, []);
    BasePrice(y, []);
    PlainFoldCost(x, y);
  }

  /** A saturated baseline is not discounted: `-x`, 127 times, costs nothing once `x` is constant, but is priced in full. */
  lemma SaturatedHasNoDiscount(x: Build, y: Build, flags: seq<bool>)
    requires IsVariable(x, 0) && IsConstant(y) && |flags| >= 1 && flags[0]
    ensures
      var b := Product(Folded(x, y), 127);
      CostOf(Substituted(b, flags)) == 0 && PriceOf(b, flags) == 127
  {
    var c := Substituted(Folded(x, y), flags);
    SubstitutedVariable(x, y, flags);
    ConstantCost(c.left, c.right);
    ProductCost(c, 127);
    VariableCost(x, y);
    ProductCost(Folded(x, y), 127);
  }
}
