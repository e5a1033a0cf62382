/** The distance between two names, against its definition by edit scripts. */
module EditScripts {
  import opened ByteStrings

  type Text = seq<byte>

  // ----- the definition -----

  /**
   A swap turns `u ... v` into `v ... u`; `p` characters in between are deleted and `q` others inserted, each at the
   usual price.
   */
  datatype Op = Keep | Substitute | Insert | Delete | Swap(p: nat, q: nat)

  function From(op: Op): nat {
    match op
    case Insert => 0
    case Swap(p, _) => p + 2
    case _ => 1
  }

  function To(op: Op): nat {
    match op
    case Delete => 0
    case Swap(_, q) => q + 2
    case _ => 1
  }

  function Cost(op: Op): nat {
    match op
    case Keep => 0
    case Swap(p, q) => p + 1 + q
    case _ => 1
  }

  /** The operation applies to what is right before place `i` of `a` and place `j` of `b`. */
  predicate Applies(op: Op, a: Text, b: Text, i: nat, j: nat)
    requires i <= |a| && j <= |b|
  {
    && From(op) <= i && To(op) <= j
    && (op.Keep? ==> a[i - 1] == b[j - 1])
    && (op.Swap? ==> a[i - From(op)] == b[j - 1] && b[j - To(op)] == a[i - 1])
  }

  /** The script turns the text between `i0` and `i` of `a` into the one between `j0` and `j` of `b`. */
  predicate Turns(ops: seq<Op>, a: Text, b: Text, i0: nat, j0: nat, i: nat, j: nat)
    requires i <= |a| && j <= |b|
    decreases |ops|
  {
    if ops == [] then i == i0 && j == j0 else
      var op := ops[|ops| - 1];
      && Applies(op, a, b, i, j)
      && Turns(ops[..|ops| - 1], a, b, i0, j0, i - From(op), j - To(op))
  }

  function Total(ops: seq<Op>): nat
    decreases |ops|
  {
    if ops == [] then 0 else Total(ops[..|ops| - 1]) + Cost(ops[|ops| - 1])
  }

  ghost predicate Transforms(ops: seq<Op>, a: Text, b: Text) {
    Turns(ops, a, b, 0, 0, |a|, |b|)
  }

  /** The least cost of a script. */
  ghost predicate IsDistance(a: Text, b: Text, d: nat) {
    && (exists ops :: Transforms(ops, a, b) && Total(ops) == d)
    && (forall ops :: Transforms(ops, a, b) ==> d <= Total(ops))
  }

  // ----- the recurrence -----

  /** One past the last place of `c` before `n`, zero if there is none. */
  function LastPlace(s: Text, n: nat, c: byte): (r: nat)
    requires n <= |s|
    ensures r <= n && (r > 0 ==> s[r - 1] == c)
    ensures forall i :: r <= i < n ==> s[i] != c
  {
    if n == 0 then 0 else if s[n - 1] == c then n else LastPlace(s, n - 1, c)
  }

  function Min(a: nat, b: nat): nat {
    if a < b then a else b
  }

  function Differ(x: byte, y: byte): nat {
    if x == y then 0 else 1
  }

  /** The distances of all pairs of prefixes. */
  type Table = (nat, nat) -> nat

  /** What entry `i`, `j` is, from earlier ones; only the last places of the two characters are considered for a swap. */
  function Entry(a: Text, b: Text, d: Table, i: nat, j: nat): nat
    requires i <= |a| && j <= |b|
  {
    if i == 0 then j else if j == 0 then i else
      var best := Min(Min(d(i - 1, j) + 1, d(i, j - 1) + 1), d(i - 1, j - 1) + Differ(a[i - 1], b[j - 1]));
      var x, y := LastPlace(a, i - 1, b[j - 1]), LastPlace(b, j - 1, a[i - 1]);
      if x > 0 && y > 0 then Min(best, d(x - 1, y - 1) + (i - x - 1) + 1 + (j - y - 1)) else best
  }

  /** Names an entry whose recurrence is used. */
  predicate At(i: nat, j: nat) { true }

  ghost predicate Filled(a: Text, b: Text, d: Table) {
    forall i: nat, j: nat {:trigger At(i, j)} :: i <= |a| && j <= |b| && At(i, j) ==> d(i, j) == Entry(a, b, d, i, j)
  }

  function D(a: Text, b: Text, i: nat, j: nat): nat
    requires i <= |a| && j <= |b|
    decreases i + j
  {
    if i == 0 then j else if j == 0 then i else
      var best := Min(Min(D(a, b, i - 1, j) + 1, D(a, b, i, j - 1) + 1), D(a, b, i - 1, j - 1) + Differ(a[i - 1], b[j - 1]));
      var x, y := LastPlace(a, i - 1, b[j - 1]), LastPlace(b, j - 1, a[i - 1]);
      if x > 0 && y > 0 then Min(best, D(a, b, x - 1, y - 1) + (i - x - 1) + 1 + (j - y - 1)) else best
  }

  lemma FilledTable(a: Text, b: Text) returns (d: Table)
    ensures Filled(a, b, d)
  {
    d := (i: nat, j: nat) => if i <= |a| && j <= |b| then D(a, b, i, j) else 0;
  }

  /** The four ways to end are upper bounds. */
  lemma Steps(a: Text, b: Text, d: Table, i: nat, j: nat)
    requires Filled(a, b, d) && i <= |a| && j <= |b|
    ensures i > 0 ==> d(i, j) <= d(i - 1, j) + 1
    ensures j > 0 ==> d(i, j) <= d(i, j - 1) + 1
    ensures i > 0 && j > 0 ==> d(i, j) <= d(i - 1, j - 1) + Differ(a[i - 1], b[j - 1])
  {
    assert At(i, j);
    assert i > 0 ==> At(i - 1, j);
    assert j > 0 ==> At(i, j - 1);
  }

  /** Each further character of either text costs at most one. */
  lemma {:induction false} Grow(a: Text, b: Text, d: Table, i0: nat, j0: nat, i: nat, j: nat)
    requires Filled(a, b, d) && i0 <= i <= |a| && j0 <= j <= |b|
    ensures d(i, j) <= d(i0, j0) + (i - i0) + (j - j0)
    decreases i - i0 + j - j0
  {
    Steps(a, b, d, i, j);
    if i > i0 {
      Grow(a, b, d, i0, j0, i - 1, j);
    } else if j > j0 {
      Grow(a, b, d, i0, j0, i, j - 1);
    }
  }

  // ----- the recurrence gives the least cost -----

  /** A swap of any two places is no better than the one of the last places. */
  lemma SwapBound(a: Text, b: Text, d: Table, i: nat, j: nat, p: nat, q: nat)
    requires Filled(a, b, d) && i <= |a| && j <= |b| && Applies(Swap(p, q), a, b, i, j)
    ensures d(i, j) <= d(i - p - 2, j - q - 2) + p + 1 + q
  {
    var x, y := LastPlace(a, i - 1, b[j - 1]), LastPlace(b, j - 1, a[i - 1]);
    assert At(i, j);
    Grow(a, b, d, i - p - 2, j - q - 2, x - 1, y - 1);
  }

  /** No script is cheaper. */
  lemma {:induction false} NoCheaperScript(ops: seq<Op>, a: Text, b: Text, d: Table, i: nat, j: nat)
    requires Filled(a, b, d) && i <= |a| && j <= |b| && Turns(ops, a, b, 0, 0, i, j)
    ensures d(i, j) <= Total(ops)
    decreases |ops|
  {
    Steps(a, b, d, i, j);
    if ops != [] {
      var op := ops[|ops| - 1];
      NoCheaperScript(ops[..|ops| - 1], a, b, d, i - From(op), j - To(op));
      if op.Swap? {
        SwapBound(a, b, d, i, j, op.p, op.q);
      }
    } else {
      assert At(0, 0);
    }
  }

  lemma Extend(ops: seq<Op>, op: Op, a: Text, b: Text, i0: nat, j0: nat, i: nat, j: nat)
    requires i <= |a| && j <= |b| && Applies(op, a, b, i, j) && Turns(ops, a, b, i0, j0, i - From(op), j - To(op))
    ensures Turns(ops + [op], a, b, i0, j0, i, j) && Total(ops + [op]) == Total(ops) + Cost(op)
  {
    assert (ops + [op])[..|ops|] == ops;
  }

  /** The operation that the recurrence ends with. */
  lemma BestOp(a: Text, b: Text, d: Table, i: nat, j: nat) returns (op: Op)
    requires Filled(a, b, d) && i <= |a| && j <= |b| && i + j > 0
    ensures Applies(op, a, b, i, j) && d(i, j) == d(i - From(op), j - To(op)) + Cost(op)
  {
    assert At(i, j);
    if i == 0 {
      assert At(0, j - 1);
      op := Insert;
    } else if j == 0 {
      assert At(i - 1, 0);
      op := Delete;
    } else if d(i, j) == d(i - 1, j) + 1 {
      op := Delete;
    } else if d(i, j) == d(i, j - 1) + 1 {
      op := Insert;
    } else if d(i, j) == d(i - 1, j - 1) + Differ(a[i - 1], b[j - 1]) {
      op := if a[i - 1] == b[j - 1] then Keep else Substitute;
    } else {
      var x, y := LastPlace(a, i - 1, b[j - 1]), LastPlace(b, j - 1, a[i - 1]);
      op := Swap(i - x - 1, j - y - 1);
    }
  }

  /** Some script costs that much. */
  lemma {:induction false} BestScript(a: Text, b: Text, d: Table, i: nat, j: nat) returns (ops: seq<Op>)
    requires Filled(a, b, d) && i <= |a| && j <= |b|
    ensures Turns(ops, a, b, 0, 0, i, j) && Total(ops) == d(i, j)
    decreases i + j
  {
    if i + j == 0 {
      assert At(i, j);
      ops := [];
    } else {
      var op := BestOp(a, b, d, i, j);
      Progress(op);
      var before := BestScript(a, b, d, i - From(op), j - To(op));
      Extend(before, op, a, b, 0, 0, i, j);
      ops := before + [op];
    }
  }

  lemma Progress(op: Op)
    ensures From(op) + To(op) > 0
  {
  }

  /** The last entry of a filled table is the distance. */
  lemma TableGivesDistance(a: Text, b: Text, d: Table)
    requires Filled(a, b, d)
    ensures IsDistance(a, b, d(|a|, |b|))
  {
    var ops := BestScript(a, b, d, |a|, |b|);
    forall ops' | Transforms(ops', a, b)
      ensures d(|a|, |b|) <= Total(ops')
    {
      NoCheaperScript(ops', a, b, d, |a|, |b|);
    }
  }

  // ----- common ends -----

  /** Keeping the last character of `a` at an earlier place of `b`. */
  lemma KeepThenGrow(a: Text, b: Text, d: Table, i: nat, j: nat, x: nat, y: nat)
    requires Filled(a, b, d) && 0 < x <= i <= |a| && 0 < y <= j <= |b| && b[y - 1] == a[i - 1]
    ensures d(i, j) <= d(x - 1, y - 1) + (i - x) + (j - y)
  {
    Grow(a, b, d, i, y, i, j);
    Steps(a, b, d, i, y);
    Grow(a, b, d, x - 1, y - 1, i - 1, y - 1);
  }

  lemma KeepThenGrowLeft(a: Text, b: Text, d: Table, i: nat, j: nat, x: nat, y: nat)
    requires Filled(a, b, d) && 0 < x <= i <= |a| && 0 < y <= j <= |b| && a[x - 1] == b[j - 1]
    ensures d(i, j) <= d(x - 1, y - 1) + (i - x) + (j - y)
  {
    Grow(a, b, d, x, j, i, j);
    Steps(a, b, d, x, j);
    Grow(a, b, d, x - 1, y - 1, x - 1, j - 1);
  }

  /** One character less changes the distance by at most one. */
  lemma {:induction false} Shrink(a: Text, b: Text, d: Table, i: nat, j: nat)
    requires Filled(a, b, d) && i <= |a| && j <= |b|
    ensures j > 0 ==> d(i, j - 1) <= d(i, j) + 1
    ensures i > 0 ==> d(i - 1, j) <= d(i, j) + 1
    decreases i + j
  {
    assert At(i, j);
    if i > 0 && j > 0 {
      Shrink(a, b, d, i - 1, j);
      Shrink(a, b, d, i, j - 1);
      Steps(a, b, d, i, j - 1);
      Steps(a, b, d, i - 1, j);
      var x, y := LastPlace(a, i - 1, b[j - 1]), LastPlace(b, j - 1, a[i - 1]);
      if x > 0 && y > 0 {
        KeepThenGrow(a, b, d, i, j - 1, x, y);
        KeepThenGrowLeft(a, b, d, i - 1, j, x, y);
      }
    } else {
      assert j > 0 ==> At(i, j - 1);
      assert i > 0 ==> At(i - 1, j);
    }
  }

  /** A common last character can be dropped. */
  lemma DropCommonLast(a: Text, b: Text, d: Table, i: nat, j: nat)
    requires Filled(a, b, d) && 0 < i <= |a| && 0 < j <= |b| && a[i - 1] == b[j - 1]
    ensures d(i, j) == d(i - 1, j - 1)
  {
    assert At(i, j);
    Shrink(a, b, d, i - 1, j);
    Shrink(a, b, d, i, j - 1);
    var x, y := LastPlace(a, i - 1, b[j - 1]), LastPlace(b, j - 1, a[i - 1]);
    if x > 0 && y > 0 {
      Grow(a, b, d, x, y, i - 1, j - 1);
      Steps(a, b, d, x, y);
    }
  }

  lemma {:induction false} LastPlacePrefix(s: Text, m: nat, n: nat, c: byte)
    requires n <= m <= |s|
    ensures LastPlace(s[..m], n, c) == LastPlace(s, n, c)
  {
    if n > 0 {
      LastPlacePrefix(s, m, n - 1, c);
    }
  }

  lemma PrefixFilled(a: Text, b: Text, d: Table, m: nat, n: nat)
    requires Filled(a, b, d) && m <= |a| && n <= |b|
    ensures Filled(a[..m], b[..n], d)
  {
    forall i: nat, j: nat {:trigger At(i, j)} | i <= m && j <= n && At(i, j)
      ensures d(i, j) == Entry(a[..m], b[..n], d, i, j)
    {
      if i > 0 && j > 0 {
        LastPlacePrefix(a, m, i - 1, b[j - 1]);
        LastPlacePrefix(b, n, j - 1, a[i - 1]);
      }
    }
  }

  lemma OneDistance(a: Text, b: Text, x: nat, y: nat)
    requires IsDistance(a, b, x) && IsDistance(a, b, y)
    ensures x == y
  {
    var ops :| Transforms(ops, a, b) && Total(ops) == x;
    var ops' :| Transforms(ops', a, b) && Total(ops') == y;
  }

  lemma StripLast(a: Text, b: Text, x: nat)
    requires a != [] && b != [] && a[|a| - 1] == b[|b| - 1]
    ensures IsDistance(a, b, x) <==> IsDistance(a[..|a| - 1], b[..|b| - 1], x)
  {
    var m, n := |a| - 1, |b| - 1;
    var d := FilledTable(a, b);
    PrefixFilled(a, b, d, m, n);
    TableGivesDistance(a, b, d);
    TableGivesDistance(a[..m], b[..n], d);
    DropCommonLast(a, b, d, |a|, |b|);
    if IsDistance(a, b, x) {
      OneDistance(a, b, x, d(|a|, |b|));
    }
    if IsDistance(a[..m], b[..n], x) {
      OneDistance(a[..m], b[..n], x, d(m, n));
    }
  }

  // ----- reading backwards -----

  function Reversed(s: Text): (r: Text)
    ensures |r| == |s|
  {
    seq(|s|, k requires 0 <= k < |s| => s[|s| - 1 - k])
  }

  function Backwards(ops: seq<Op>): seq<Op>
    decreases |ops|
  {
    if ops == [] then [] else [ops[|ops| - 1]] + Backwards(ops[..|ops| - 1])
  }

  lemma {:induction false} Prepend(op: Op, ops: seq<Op>, a: Text, b: Text, i0: nat, j0: nat, i: nat, j: nat)
    requires i <= |a| && j <= |b| && i0 + From(op) <= |a| && j0 + To(op) <= |b|
    requires Applies(op, a, b, i0 + From(op), j0 + To(op)) && Turns(ops, a, b, i0 + From(op), j0 + To(op), i, j)
    ensures Turns([op] + ops, a, b, i0, j0, i, j) && Total([op] + ops) == Cost(op) + Total(ops)
    decreases |ops|
  {
    var all := [op] + ops;
    if ops == [] {
      assert all[..0] == [];
    } else {
      var last := ops[|ops| - 1];
      var before := ops[..|ops| - 1];
      Prepend(op, before, a, b, i0, j0, i - From(last), j - To(last));
      assert all[..|all| - 1] == [op] + before;
    }
  }

  lemma AppliesBackwards(op: Op, a: Text, b: Text, i: nat, j: nat)
    requires i <= |a| && j <= |b| && Applies(op, a, b, i, j)
    ensures Applies(op, Reversed(a), Reversed(b), |a| - i + From(op), |b| - j + To(op))
  {
  }

  lemma {:induction false} TurnsBackwards(ops: seq<Op>, a: Text, b: Text, i0: nat, j0: nat, i: nat, j: nat)
    requires i0 <= |a| && j0 <= |b| && i <= |a| && j <= |b| && Turns(ops, a, b, i0, j0, i, j)
    ensures Turns(Backwards(ops), Reversed(a), Reversed(b), |a| - i, |b| - j, |a| - i0, |b| - j0)
    ensures Total(Backwards(ops)) == Total(ops)
    decreases |ops|
  {
    if ops != [] {
      var op := ops[|ops| - 1];
      var before := ops[..|ops| - 1];
      TurnsBackwards(before, a, b, i0, j0, i - From(op), j - To(op));
      AppliesBackwards(op, a, b, i, j);
      Prepend(op, Backwards(before), Reversed(a), Reversed(b), |a| - i, |b| - j, |a| - i0, |b| - j0);
    }
  }

  lemma ScriptBackwards(ops: seq<Op>, a: Text, b: Text)
    requires Transforms(ops, a, b)
    ensures Transforms(Backwards(ops), Reversed(a), Reversed(b)) && Total(Backwards(ops)) == Total(ops)
  {
    TurnsBackwards(ops, a, b, 0, 0, |a|, |b|);
  }

  lemma ReversedTwice(a: Text)
    ensures Reversed(Reversed(a)) == a
  {
  }

  /** Texts read backwards are as far apart. */
  lemma ReversedDistance(a: Text, b: Text, ra: Text, rb: Text, x: nat)
    requires IsDistance(a, b, x) && ra == Reversed(a) && rb == Reversed(b)
    ensures IsDistance(ra, rb, x)
  {
    var ops :| Transforms(ops, a, b) && Total(ops) == x;
    ScriptBackwards(ops, a, b);
    ReversedTwice(a);
    ReversedTwice(b);
    forall ops' | Transforms(ops', ra, rb)
      ensures x <= Total(ops')
    {
      ScriptBackwards(ops', ra, rb);
    }
  }

  lemma StripFirst(a: Text, b: Text, x: nat)
    requires a != [] && b != [] && a[0] == b[0] && IsDistance(a[1..], b[1..], x)
    ensures IsDistance(a, b, x)
  {
    var ra, rb := Reversed(a), Reversed(b);
    assert ra[..|ra| - 1] == Reversed(a[1..]) && rb[..|rb| - 1] == Reversed(b[1..]);
    ReversedDistance(a[1..], b[1..], ra[..|ra| - 1], rb[..|rb| - 1], x);
    StripLast(ra, rb, x);
    ReversedTwice(a);
    ReversedTwice(b);
    ReversedDistance(ra, rb, a, b, x);
  }

  lemma EmptyDistance(a: Text, b: Text)
    requires a == [] || b == []
    ensures IsDistance(a, b, |a| + |b|)
  {
    var d := FilledTable(a, b);
    assert At(|a|, |b|);
    TableGivesDistance(a, b, d);
  }

  // ----- the algorithm -----

  /** The entries already computed, one row and one column further on in the flat table. */
  function Pos(x: nat, y: nat, width: nat): nat {
    x * width + y
  }

  lemma {:induction false} NextRow(x: nat, x': nat, width: nat)
    requires x < x'
    ensures x * width + width <= x' * width
    decreases x'
  {
    var y := x' - 1;
    assert x' * width == y * width + width;
    if x < y {
      NextRow(x, y, width);
    }
  }

  lemma PosInRange(x: nat, y: nat, height: nat, width: nat)
    requires x < height && y < width
    ensures Pos(x, y, width) < height * width
  {
    NextRow(x, height, width);
  }

  lemma PosDistinct(x: nat, y: nat, x': nat, y': nat, width: nat)
    requires y < width && y' < width && (x != x' || y != y')
    ensures Pos(x, y, width) != Pos(x', y', width)
  {
    if x < x' {
      NextRow(x, x', width);
    } else if x' < x {
      NextRow(x', x, width);
    }
  }
}
