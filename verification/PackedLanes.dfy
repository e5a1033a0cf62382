/** Several small numbers in one word: how sums, products and bit masks act on them lane by lane. */
module PackedLanes {
  import opened PowersOfTwo

  /** `c`, `k` bits further up. */
  function Up(k: nat, c: nat): nat {
    if k == 0 then c else 2 * Up(k - 1, c)
  }

  lemma {:induction false} UpAdd(k: nat, c: nat, d: nat)
    ensures Up(k, c) + Up(k, d) == Up(k, c + d)
    decreases k
  {
    if k > 0 {
      UpAdd(k - 1, c, d);
    }
  }

  lemma {:induction false} UpTwice(j: nat, k: nat, c: nat)
    ensures Up(j, Up(k, c)) == Up(j + k, c)
    decreases j
  {
    if j > 0 {
      UpTwice(j - 1, k, c);
    }
  }

  lemma {:induction false} UpScale(k: nat, b: nat, c: nat)
    ensures b * Up(k, c) == Up(k, b * c)
    decreases k
  {
    if k > 0 {
      UpScale(k - 1, b, c);
      assert b * (2 * Up(k - 1, c)) == 2 * (b * Up(k - 1, c));
    }
  }

  lemma {:induction false} UpIsTimes(k: nat, c: nat)
    ensures Up(k, c) == Pow2(k) * c
    decreases k
  {
    if k > 0 {
      UpIsTimes(k - 1, c);
    }
  }

  lemma {:induction false} UpBound(k: nat, n: nat, x: nat, y: nat)
    requires x < Pow2(k) && y < Pow2(n)
    ensures x + Up(k, y) < Pow2(k + n)
    decreases k
  {
    if k > 0 {
      UpBound(k - 1, n, x / 2, y);
    }
  }

  // ----- bitwise operations, one bit at a time -----

  type Gate = (nat, nat) -> bool

  function AndGate(x: nat, y: nat): bool { x == 1 && y == 1 }

  function OrGate(x: nat, y: nat): bool { x == 1 || y == 1 }

  function XorGate(x: nat, y: nat): bool { x != y }

  /** The operation on the low `n` bits. */
  function Bits(gate: Gate, n: nat, a: nat, b: nat): (r: nat)
    ensures r < Pow2(n)
  {
    if n == 0 then 0 else 2 * Bits(gate, n - 1, a / 2, b / 2) + if gate(a % 2, b % 2) then 1 else 0
  }

  /** Low and high parts do not interfere. */
  lemma {:induction false} BitsOfSums(gate: Gate, k: nat, m: nat, a: nat, b: nat, c: nat, d: nat, n: nat, x: nat, y: nat)
    requires a < Pow2(k) && b < Pow2(k) && n == k + m && x == a + Up(k, c) && y == b + Up(k, d)
    ensures Bits(gate, n, x, y) == Bits(gate, k, a, b) + Up(k, Bits(gate, m, c, d))
    decreases k
  {
    if k > 0 {
      assert x / 2 == a / 2 + Up(k - 1, c) && x % 2 == a % 2;
      assert y / 2 == b / 2 + Up(k - 1, d) && y % 2 == b % 2;
      BitsOfSums(gate, k - 1, m, a / 2, b / 2, c, d, n - 1, x / 2, y / 2);
    }
  }

  lemma BitsSplit(gate: Gate, k: nat, m: nat, a: nat, b: nat, c: nat, d: nat)
    requires a < Pow2(k) && b < Pow2(k)
    ensures Bits(gate, k + m, a + Up(k, c), b + Up(k, d)) == Bits(gate, k, a, b) + Up(k, Bits(gate, m, c, d))
  {
    BitsOfSums(gate, k, m, a, b, c, d, k + m, a + Up(k, c), b + Up(k, d));
  }

  /** With zero on one side, `and` gives zero, `or` and `xor` the other side. */
  lemma {:induction false} BitsZero(n: nat, a: nat)
    requires a < Pow2(n)
    ensures Bits(AndGate, n, a, 0) == 0 && Bits(OrGate, n, a, 0) == a && Bits(XorGate, n, a, 0) == a && Bits(OrGate, n, 0, a) == a
    decreases n
  {
    if n > 0 {
      BitsZero(n - 1, a / 2);
    }
  }

  /** With ones on one side, `and` gives the other side, `or` ones. */
  lemma {:induction false} BitsOnes(n: nat, a: nat)
    requires a < Pow2(n)
    ensures Bits(AndGate, n, a, Pow2(n) - 1) == a && Bits(OrGate, n, a, Pow2(n) - 1) == Pow2(n) - 1
    decreases n
  {
    if n > 0 {
      BitsOnes(n - 1, a / 2);
      assert (Pow2(n) - 1) / 2 == Pow2(n - 1) - 1;
    }
  }

  lemma Powers()
    ensures Pow2(7) == 128 && Pow2(8) == 256
  {
  }

  lemma WidePowers()
    ensures Pow2(16) == 0x1_0000 && Pow2(64) == 0x1_0000_0000_0000_0000
  {
    Powers();
    PowSplit(8, 8);
    PowSplit(16, 16);
    PowSplit(32, 32);
  }

  // ----- one lane -----

  /** A lane is its low `k` bits and its top bit. */
  lemma TopSplit(gate: Gate, k: nat, d: nat, lo: nat, hi: nat)
    requires d < 2 * Pow2(k) && lo < Pow2(k) && hi < 2
    ensures Bits(gate, k + 1, d, lo + Pow2(k) * hi) ==
            Bits(gate, k, d % Pow2(k), lo) + (if gate(if d < Pow2(k) then 0 else 1, hi) then Pow2(k) else 0)
  {
    var p := Pow2(k);
    var top := if d < p then 0 else 1;
    Remainder(d, p);
    UpIsTimes(k, top);
    UpIsTimes(k, hi);
    BitsSplit(gate, k, 1, d % p, lo, top, hi);
    OneBit(gate, top, hi);
    UpIsTimes(k, Bits(gate, 1, top, hi));
  }

  lemma Remainder(d: nat, p: nat)
    requires d < 2 * p
    ensures d % p == if d < p then d else d - p
  {
    if d >= p {
      assert d == p * 1 + (d - p);
    }
  }

  lemma OneBit(gate: Gate, x: nat, y: nat)
    requires x < 2 && y < 2
    ensures Bits(gate, 1, x, y) == if gate(x, y) then 1 else 0
  {
    assert Bits(gate, 0, x / 2, y / 2) == 0;
    assert x % 2 == x && y % 2 == y;
  }

  /** The top bit alone. */
  lemma TopBit(k: nat, d: nat)
    requires d < 2 * Pow2(k)
    ensures Bits(AndGate, k + 1, d, Pow2(k)) == (if d >= Pow2(k) then Pow2(k) else 0)
    ensures Bits(XorGate, k + 1, d, if d >= Pow2(k) then Pow2(k) else 0) == d % Pow2(k)
  {
    TopSplit(AndGate, k, d, 0, 1);
    TopSplit(XorGate, k, d, 0, if d >= Pow2(k) then 1 else 0);
    BitsZero(k, d % Pow2(k));
  }

  lemma OrOnes(k: nat, e: nat)
    requires e < Pow2(k)
    ensures Bits(OrGate, k + 1, e, Pow2(k) - 1) == Pow2(k) - 1
  {
    BitsSplit(OrGate, k, 1, e, Pow2(k) - 1, 0, 0);
    UpIsTimes(k, 0);
    OneBit(OrGate, 0, 0);
    BitsOnes(k, e);
  }

  lemma OrLow(e: nat)
    requires e < 128
    ensures Bits(OrGate, 8, e, 127) == 127 && Bits(OrGate, 8, e, 0) == e
  {
    Powers();
    BitsZero(8, e);
    OrOnes(7, e);
  }

  /** A byte that saturated, and one that did not. */
  lemma SaturateByte(d: nat)
    requires d < 256
    ensures Bits(OrGate, 8, d % 128, if d >= 128 then 127 else 0) == if d >= 128 then 127 else d
  {
    var e := d % 128;
    OrLow(e);
  }

  /** Bytes that share a wide lane do not interfere. */
  lemma TwoBytes(gate: Gate, a: nat, b: nat, c: nat, d: nat)
    requires a < 256 && b < 256
    ensures Bits(gate, 16, a + 256 * c, b + 256 * d) == Bits(gate, 8, a, b) + 256 * Bits(gate, 8, c, d)
  {
    Powers();
    BitsSplit(gate, 8, 8, a, b, c, d);
    UpIsTimes(8, c);
    UpIsTimes(8, d);
    UpIsTimes(8, Bits(gate, 8, c, d));
  }

  lemma NoBits(d: nat)
    requires d < 256
    ensures Bits(XorGate, 8, d, 0) == d && Bits(OrGate, 8, d, 0) == d && Bits(OrGate, 8, 0, d) == d && Bits(AndGate, 8, d, 0) == 0
  {
    Powers();
    BitsZero(8, d);
  }

  /** The low seven bits alone. */
  lemma LowBits(d: nat)
    requires d < 256
    ensures Bits(AndGate, 8, d, 127) == d % 128
  {
    Powers();
    TopSplit(AndGate, 7, d, 127, 0);
    BitsOnes(7, d % 128);
  }

  // ----- lanes -----

  type Lanes = seq<nat>

  /** Lanes of `k` bits, the first one lowest. */
  function Pack(k: nat, v: Lanes): nat {
    if v == [] then 0 else v[0] + Up(k, Pack(k, v[1..]))
  }

  ghost predicate Fit(k: nat, v: Lanes) {
    v == [] || (v[0] < Pow2(k) && Fit(k, v[1..]))
  }

  function AddLanes(v: Lanes, w: Lanes): (r: Lanes)
    requires |v| == |w|
    ensures |r| == |v|
  {
    if v == [] then [] else [v[0] + w[0]] + AddLanes(v[1..], w[1..])
  }

  function ScaleLanes(b: nat, v: Lanes): (r: Lanes)
    ensures |r| == |v|
  {
    if v == [] then [] else [b * v[0]] + ScaleLanes(b, v[1..])
  }

  function BitLanes(gate: Gate, k: nat, v: Lanes, w: Lanes): (r: Lanes)
    requires |v| == |w|
    ensures |r| == |v|
  {
    if v == [] then [] else [Bits(gate, k, v[0], w[0])] + BitLanes(gate, k, v[1..], w[1..])
  }

  lemma {:induction false} PackAdd(k: nat, v: Lanes, w: Lanes)
    requires |v| == |w|
    ensures Pack(k, v) + Pack(k, w) == Pack(k, AddLanes(v, w))
    decreases |v|
  {
    if v != [] {
      PackAdd(k, v[1..], w[1..]);
      UpAdd(k, Pack(k, v[1..]), Pack(k, w[1..]));
    }
  }

  lemma {:induction false} PackScale(k: nat, b: nat, v: Lanes)
    ensures b * Pack(k, v) == Pack(k, ScaleLanes(b, v))
    decreases |v|
  {
    if v != [] {
      var rest := Pack(k, v[1..]);
      PackScale(k, b, v[1..]);
      UpScale(k, b, rest);
      assert b * (v[0] + Up(k, rest)) == b * v[0] + b * Up(k, rest);
    }
  }

  /** The total width of lanes. */
  function Width(k: nat, v: Lanes): nat {
    if v == [] then 0 else k + Width(k, v[1..])
  }

  lemma PackFirst(k: nat, v: Lanes)
    requires v != []
    ensures Pack(k, v) == v[0] + Up(k, Pack(k, v[1..])) && Width(k, v) == k + Width(k, v[1..])
  {
  }

  lemma BitLanesFirst(gate: Gate, k: nat, v: Lanes, w: Lanes)
    requires |v| == |w| && v != []
    ensures Pack(k, BitLanes(gate, k, v, w)) == Bits(gate, k, v[0], w[0]) + Up(k, Pack(k, BitLanes(gate, k, v[1..], w[1..])))
  {
    var first, rest := Bits(gate, k, v[0], w[0]), BitLanes(gate, k, v[1..], w[1..]);
    assert ([first] + rest)[1..] == rest;
    PackFirst(k, [first] + rest);
  }

  /** The gate on whole packed words. */
  function WordBits(gate: Gate, k: nat, v: Lanes, w: Lanes): nat {
    Bits(gate, Width(k, v), Pack(k, v), Pack(k, w))
  }

  lemma WordBitsFirst(gate: Gate, k: nat, v: Lanes, w: Lanes)
    requires |v| == |w| && v != [] && v[0] < Pow2(k) && w[0] < Pow2(k)
    ensures WordBits(gate, k, v, w) == Bits(gate, k, v[0], w[0]) + Up(k, WordBits(gate, k, v[1..], w[1..]))
  {
    PackFirst(k, v);
    PackFirst(k, w);
    BitsOfSums(gate, k, Width(k, v[1..]), v[0], w[0], Pack(k, v[1..]), Pack(k, w[1..]), Width(k, v), Pack(k, v), Pack(k, w));
  }

  lemma {:induction false} PackBits(gate: Gate, k: nat, v: Lanes, w: Lanes)
    requires |v| == |w| && Fit(k, v) && Fit(k, w)
    ensures WordBits(gate, k, v, w) == Pack(k, BitLanes(gate, k, v, w))
    decreases |v|
  {
    if v != [] {
      PackBits(gate, k, v[1..], w[1..]);
      WordBitsFirst(gate, k, v, w);
      BitLanesFirst(gate, k, v, w);
    }
  }

  lemma {:induction false} PackBound(k: nat, v: Lanes)
    requires Fit(k, v)
    ensures Pack(k, v) < Pow2(Width(k, v))
    decreases |v|
  {
    if v != [] {
      PackBound(k, v[1..]);
      UpBound(k, Width(k, v[1..]), v[0], Pack(k, v[1..]));
    }
  }

  // ----- lane by lane -----

  function Each(f: nat -> nat, v: Lanes): (r: Lanes)
    ensures |r| == |v|
  {
    if v == [] then [] else [f(v[0])] + Each(f, v[1..])
  }

  function Same(c: nat, n: nat): (r: Lanes)
    ensures |r| == n
  {
    if n == 0 then [] else [c] + Same(c, n - 1)
  }

  ghost predicate AllBelow(v: Lanes, bound: nat) {
    v == [] || (v[0] < bound && AllBelow(v[1..], bound))
  }

  lemma {:induction false} FitBelow(k: nat, v: Lanes, bound: nat)
    requires AllBelow(v, bound) && bound <= Pow2(k)
    ensures Fit(k, v)
    decreases |v|
  {
    if v != [] {
      FitBelow(k, v[1..], bound);
    }
  }

  lemma {:induction false} EachBelow(f: nat -> nat, v: Lanes, bound: nat, bound': nat)
    requires AllBelow(v, bound) && forall d: nat :: d < bound ==> f(d) < bound'
    ensures AllBelow(Each(f, v), bound')
    decreases |v|
  {
    if v != [] {
      EachBelow(f, v[1..], bound, bound');
    }
  }

  lemma {:induction false} SameBelow(c: nat, n: nat, bound: nat)
    requires c < bound
    ensures AllBelow(Same(c, n), bound)
    decreases n
  {
    if n > 0 {
      SameBelow(c, n - 1, bound);
    }
  }

  lemma {:induction false} EachBits(gate: Gate, k: nat, f: nat -> nat, g: nat -> nat, h: nat -> nat, v: Lanes, bound: nat)
    requires AllBelow(v, bound) && forall d: nat :: d < bound ==> Bits(gate, k, f(d), g(d)) == h(d)
    ensures BitLanes(gate, k, Each(f, v), Each(g, v)) == Each(h, v)
    decreases |v|
  {
    if v != [] {
      EachBits(gate, k, f, g, h, v[1..], bound);
    }
  }

  lemma {:induction false} EachScale(b: nat, f: nat -> nat, g: nat -> nat, v: Lanes, bound: nat)
    requires AllBelow(v, bound) && forall d: nat :: d < bound ==> b * f(d) == g(d)
    ensures ScaleLanes(b, Each(f, v)) == Each(g, v)
    decreases |v|
  {
    if v != [] {
      EachScale(b, f, g, v[1..], bound);
    }
  }

  lemma {:induction false} EachConstant(c: nat, v: Lanes)
    ensures Each(_ => c, v) == Same(c, |v|)
    decreases |v|
  {
    if v != [] {
      EachConstant(c, v[1..]);
    }
  }

  lemma {:induction false} EachIdentity(v: Lanes)
    ensures Each(d => d, v) == v
    decreases |v|
  {
    if v != [] {
      EachIdentity(v[1..]);
      assert v == [v[0]] + v[1..];
    }
  }
}
