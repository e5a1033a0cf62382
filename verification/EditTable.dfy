/** The algorithm: common ends are dropped, and a flat table is filled row by row. */
module EditTable {
  import opened ByteStrings
  import opened EditScripts

  ghost predicate Holds(t: seq<nat>, x: nat, y: nat, width: nat, v: nat) {
    Pos(x, y, width) < |t| && t[Pos(x, y, width)] == v
  }

  /** The first row and column hold a distance that is never reached, the next ones those of the empty prefixes. */
  function StartValue(a: Text, b: Text, x: nat, y: nat): nat {
    if x == 0 || y == 0 then |a| + |b| else x + y - 2
  }

  ghost predicate Start(t: seq<nat>, a: Text, b: Text, x: nat, y: nat) {
    Holds(t, x, y, |b| + 2, StartValue(a, b, x, y))
  }

  ghost predicate Borders(t: seq<nat>, a: Text, b: Text) {
    && |t| == (|a| + 2) * (|b| + 2)
    && forall x: nat, y: nat :: x <= |a| + 1 && y <= |b| + 1 && (x == 0 || y == 0) ==> Start(t, a, b, x, y)
  }

  /** Entries up to row `x`, and in that row before column `y`, are computed, and so are those of the empty prefixes. */
  predicate Computed(i: nat, j: nat, x: nat, y: nat) {
    i < x || (i == x && j < y) || j == 0
  }

  ghost predicate Cells(t: seq<nat>, a: Text, b: Text, d: Table, x: nat, y: nat) {
    forall i: nat, j: nat :: i <= |a| && j <= |b| && Computed(i, j, x, y) ==> Holds(t, i + 1, j + 1, |b| + 2, d(i, j))
  }

  lemma AtMostSum(a: Text, b: Text, d: Table, i: nat, j: nat)
    requires Filled(a, b, d) && i <= |a| && j <= |b|
    ensures d(i, j) <= i + j
  {
    assert At(0, 0);
    Grow(a, b, d, 0, 0, i, j);
  }

  /** What the algorithm takes the minimum of. */
  function Next(t: seq<nat>, a: Text, b: Text, x: nat, y: nat, x1: nat, y1: nat, cost: nat): nat
    requires 0 < x <= |a| && 0 < y <= |b| && x1 < x && y1 < y && |t| == (|a| + 2) * (|b| + 2)
  {
    PosInRange(x1, y1, |a| + 2, |b| + 2);
    PosInRange(x, y, |a| + 2, |b| + 2);
    PosInRange(x, y + 1, |a| + 2, |b| + 2);
    PosInRange(x + 1, y, |a| + 2, |b| + 2);
    var width := |b| + 2;
    var transposition := t[Pos(x1, y1, width)] + (x - x1 - 1) + 1 + (y - y1 - 1);
    var substitution := t[Pos(x, y, width)] + cost;
    var insertion := t[Pos(x, y + 1, width)] + 1;
    var deletion := t[Pos(x + 1, y, width)] + 1;
    Min(Min(insertion, deletion), Min(substitution, transposition))
  }

  lemma NextOf(t: seq<nat>, a: Text, b: Text, x: nat, y: nat, x1: nat, y1: nat, cost: nat, swap: nat, both: nat, above: nat, left: nat)
    requires 0 < x <= |a| && 0 < y <= |b| && x1 < x && y1 < y && |t| == (|a| + 2) * (|b| + 2)
    requires Holds(t, x1, y1, |b| + 2, swap) && Holds(t, x, y, |b| + 2, both)
    requires Holds(t, x, y + 1, |b| + 2, above) && Holds(t, x + 1, y, |b| + 2, left)
    ensures Next(t, a, b, x, y, x1, y1, cost) ==
            Min(Min(above + 1, left + 1), Min(both + cost, swap + (x - x1 - 1) + 1 + (y - y1 - 1)))
  {
  }

  lemma CellHolds(t: seq<nat>, a: Text, b: Text, d: Table, x: nat, y: nat, i: nat, j: nat)
    requires Cells(t, a, b, d, x, y) && i <= |a| && j <= |b| && Computed(i, j, x, y)
    ensures Holds(t, i + 1, j + 1, |b| + 2, d(i, j))
  {
  }

  lemma EntryAsMin(a: Text, b: Text, d: Table, x: nat, y: nat, x1: nat, y1: nat, cost: nat, swap: nat)
    requires Filled(a, b, d) && 0 < x <= |a| && 0 < y <= |b|
    requires x1 == LastPlace(a, x - 1, b[y - 1]) && y1 == LastPlace(b, y - 1, a[x - 1]) && cost == Differ(a[x - 1], b[y - 1])
    requires swap == if x1 == 0 || y1 == 0 then |a| + |b| else d(x1 - 1, y1 - 1)
    ensures d(x, y) == Min(Min(d(x - 1, y) + 1, d(x, y - 1) + 1), Min(d(x - 1, y - 1) + cost, swap + (x - x1 - 1) + 1 + (y - y1 - 1)))
  {
    assert At(x, y);
    AtMostSum(a, b, d, x - 1, y);
  }

  /** It is the next entry: where a character has not occurred the border makes the swap too expensive. */
  lemma NextIsEntry(t: seq<nat>, a: Text, b: Text, d: Table, x: nat, y: nat, x1: nat, y1: nat, cost: nat)
    requires Filled(a, b, d) && Borders(t, a, b) && 0 < x <= |a| && 0 < y <= |b| && Cells(t, a, b, d, x, y)
    requires x1 == LastPlace(a, x - 1, b[y - 1]) && y1 == LastPlace(b, y - 1, a[x - 1]) && cost == Differ(a[x - 1], b[y - 1])
    ensures Next(t, a, b, x, y, x1, y1, cost) == d(x, y)
  {
    var swap := if x1 == 0 || y1 == 0 then |a| + |b| else d(x1 - 1, y1 - 1);
    assert Holds(t, x1, y1, |b| + 2, swap) by {
      if x1 == 0 || y1 == 0 {
        assert Start(t, a, b, x1, y1);
      } else {
        CellHolds(t, a, b, d, x, y, x1 - 1, y1 - 1);
      }
    }
    CellHolds(t, a, b, d, x, y, x - 1, y - 1);
    CellHolds(t, a, b, d, x, y, x - 1, y);
    CellHolds(t, a, b, d, x, y, x, y - 1);
    NextOf(t, a, b, x, y, x1, y1, cost, swap, d(x - 1, y - 1), d(x - 1, y), d(x, y - 1));
    EntryAsMin(a, b, d, x, y, x1, y1, cost, swap);
  }

  /** Storing the entry extends what is computed, and touches nothing else. */
  lemma StoresEntry(t: seq<nat>, a: Text, b: Text, d: Table, x: nat, y: nat)
    requires Borders(t, a, b) && 0 < x <= |a| && 0 < y <= |b| && Cells(t, a, b, d, x, y)
    ensures Pos(x + 1, y + 1, |b| + 2) < |t|
    ensures
      var t' := t[Pos(x + 1, y + 1, |b| + 2) := d(x, y)];
      Borders(t', a, b) && Cells(t', a, b, d, x, y + 1)
  {
    var width := |b| + 2;
    PosInRange(x + 1, y + 1, |a| + 2, width);
    var t' := t[Pos(x + 1, y + 1, width) := d(x, y)];
    forall i: nat, j: nat | i <= |a| && j <= |b| && Computed(i, j, x, y + 1)
      ensures Holds(t', i + 1, j + 1, width, d(i, j))
    {
      PosInRange(i + 1, j + 1, |a| + 2, width);
      if i != x || j != y {
        assert Computed(i, j, x, y);
        assert Holds(t, i + 1, j + 1, width, d(i, j));
        PosDistinct(i + 1, j + 1, x + 1, y + 1, width);
      }
    }
    forall i: nat, j: nat | i <= |a| + 1 && j <= |b| + 1 && (i == 0 || j == 0)
      ensures Start(t', a, b, i, j)
    {
      assert Start(t, a, b, i, j);
      PosDistinct(i, j, x + 1, y + 1, width);
    }
  }

  lemma NextRowStarts(t: seq<nat>, a: Text, b: Text, d: Table, x: nat)
    requires Cells(t, a, b, d, x, |b| + 1)
    ensures Cells(t, a, b, d, x + 1, 1)
  {
    forall i: nat, j: nat | i <= |a| && j <= |b| && Computed(i, j, x + 1, 1)
      ensures Holds(t, i + 1, j + 1, |b| + 2, d(i, j))
    {
      assert Computed(i, j, x, |b| + 1);
    }
  }

  /** Which of the first two rows and columns are set once `x` rows, and then `y` columns, are done. */
  predicate Set(a: Text, p: nat, q: nat, x: nat, y: nat) {
    && p <= |a| + 1
    && ((p <= x && q == 0) || (1 <= p <= x && q == 1) || (p <= 1 && 1 <= q <= y))
  }

  ghost predicate Started(t: seq<nat>, a: Text, b: Text, x: nat, y: nat) {
    && |t| == (|a| + 2) * (|b| + 2)
    && forall p: nat, q: nat :: Set(a, p, q, x, y) ==> Start(t, a, b, p, q)
  }

  lemma StoresStart(t: seq<nat>, a: Text, b: Text, x: nat, y: nat, x': nat, y': nat)
    requires Started(t, a, b, x, y) && y <= |b| + 1 && y' <= |b| + 1
    requires (x' == x + 1 <= |a| + 1 && y' == y == 0) || (x' == x == |a| + 1 && y' == y + 1)
    ensures
      var (p, q, r, s) := if x' > x then (x', 0, x', 1) else (0, y', 1, y');
      var width := |b| + 2;
      && Pos(p, q, width) < |t| && Pos(r, s, width) < |t|
      && Started(t[Pos(p, q, width) := StartValue(a, b, p, q)][Pos(r, s, width) := StartValue(a, b, r, s)], a, b, x', y')
  {
    var width := |b| + 2;
    var (p, q, r, s) := if x' > x then (x', 0, x', 1) else (0, y', 1, y');
    PosInRange(p, q, |a| + 2, width);
    PosInRange(r, s, |a| + 2, width);
    PosDistinct(p, q, r, s, width);
    var t' := t[Pos(p, q, width) := StartValue(a, b, p, q)][Pos(r, s, width) := StartValue(a, b, r, s)];
    forall i: nat, j: nat | Set(a, i, j, x', y')
      ensures Start(t', a, b, i, j)
    {
      if (i, j) != (p, q) && (i, j) != (r, s) {
        assert Set(a, i, j, x, y);
        assert Start(t, a, b, i, j);
        PosDistinct(i, j, p, q, width);
        PosDistinct(i, j, r, s, width);
      }
    }
  }

  lemma StartedTable(t: seq<nat>, a: Text, b: Text, d: Table)
    requires Filled(a, b, d) && Started(t, a, b, |a| + 1, |b| + 1)
    ensures Borders(t, a, b) && Cells(t, a, b, d, 1, 1)
  {
    forall i: nat, j: nat | i <= |a| + 1 && j <= |b| + 1 && (i == 0 || j == 0)
      ensures Start(t, a, b, i, j)
    {
      assert Set(a, i, j, |a| + 1, |b| + 1);
    }
    forall i: nat, j: nat | i <= |a| && j <= |b| && Computed(i, j, 1, 1)
      ensures Holds(t, i + 1, j + 1, |b| + 2, d(i, j))
    {
      assert Set(a, i + 1, j + 1, |a| + 1, |b| + 1);
      assert Start(t, a, b, i + 1, j + 1);
      assert At(i, j);
    }
  }

  /** The first two rows and columns. */
  method Initialize(a: Text, b: Text, ghost d: Table) returns (distances: array<nat>)
    requires Filled(a, b, d)
    ensures fresh(distances) && Borders(distances[..], a, b) && Cells(distances[..], a, b, d, 1, 1)
  {
    var width := |b| + 2;
    var maxDistance: nat := |a| + |b|;
    distances := new nat[(|a| + 2) * width](_ => 0);
    PosInRange(0, 0, |a| + 2, width);
    distances[0] := maxDistance;
    var x: nat := 0;
    while x <= |a|
      invariant x <= |a| + 1 && fresh(distances)
      invariant Started(distances[..], a, b, x, 0)
    {
      StoresStart(distances[..], a, b, x, 0, x + 1, 0);
      ghost var before: seq<nat> := distances[..];
      distances[Pos(x + 1, 0, width)] := maxDistance;
      distances[Pos(x + 1, 1, width)] := x;
      assert distances[..] ==
             before[Pos(x + 1, 0, width) := StartValue(a, b, x + 1, 0)][Pos(x + 1, 1, width) := StartValue(a, b, x + 1, 1)];
      x := x + 1;
    }
    var y: nat := 0;
    while y <= |b|
      invariant y <= |b| + 1 && fresh(distances)
      invariant Started(distances[..], a, b, |a| + 1, y)
    {
      StoresStart(distances[..], a, b, |a| + 1, y, |a| + 1, y + 1);
      ghost var before: seq<nat> := distances[..];
      distances[Pos(0, y + 1, width)] := maxDistance;
      distances[Pos(1, y + 1, width)] := y;
      assert distances[..] ==
             before[Pos(0, y + 1, width) := StartValue(a, b, 0, y + 1)][Pos(1, y + 1, width) := StartValue(a, b, 1, y + 1)];
      y := y + 1;
    }
    StartedTable(distances[..], a, b, d);
  }

  /** All rows; `seen` has the last row of every character so far. */
  method FillTable(a: Text, b: Text) returns (r: nat)
    ensures IsDistance(a, b, r)
  {
    ghost var d := FilledTable(a, b);
    var width := |b| + 2;
    var distances := Initialize(a, b, d);
    var seenCharToRow := new nat[256](_ => 0);
    var x: nat := 1;
    while x <= |a|
      invariant 1 <= x <= |a| + 1
      invariant Borders(distances[..], a, b) && Cells(distances[..], a, b, d, x, 1)
      invariant forall c: byte :: seenCharToRow[c] == LastPlace(a, x - 1, c)
    {
      FillRow(a, b, d, distances, seenCharToRow, x);
      NextRowStarts(distances[..], a, b, d, x);
      seenCharToRow[a[x - 1]] := x;
      x := x + 1;
    }
    assert Computed(|a|, |b|, |a| + 1, 1);
    assert Holds(distances[..], |a| + 1, |b| + 1, width, d(|a|, |b|));
    PosInRange(|a| + 1, |b| + 1, |a| + 2, width);
    TableGivesDistance(a, b, d);
    r := distances[Pos(|a| + 1, |b| + 1, width)];
  }

  /** One row; `lastMatchedY` has the last column before `y` with the character of the row. */
  method FillRow(a: Text, b: Text, ghost d: Table, distances: array<nat>, seenCharToRow: array<nat>, x: nat)
    requires Filled(a, b, d) && 0 < x <= |a| && distances != seenCharToRow && seenCharToRow.Length == 256
    requires Borders(distances[..], a, b) && Cells(distances[..], a, b, d, x, 1)
    requires forall c: byte :: seenCharToRow[c] == LastPlace(a, x - 1, c)
    modifies distances
    ensures Borders(distances[..], a, b) && Cells(distances[..], a, b, d, x, |b| + 1)
  {
    var width := |b| + 2;
    var lastMatchedY := 0;
    var y: nat := 1;
    while y <= |b|
      invariant 1 <= y <= |b| + 1
      invariant Borders(distances[..], a, b) && Cells(distances[..], a, b, d, x, y)
      invariant lastMatchedY == LastPlace(b, y - 1, a[x - 1])
    {
      var x1 := seenCharToRow[b[y - 1]];
      var y1 := lastMatchedY;
      var cost := 1;
      if a[x - 1] == b[y - 1] {
        cost := 0;
        lastMatchedY := y;
      }
      NextIsEntry(distances[..], a, b, d, x, y, x1, y1, cost);
      StoresEntry(distances[..], a, b, d, x, y);
      PosInRange(x1, y1, |a| + 2, width);
      PosInRange(x, y, |a| + 2, width);
      PosInRange(x, y + 1, |a| + 2, width);
      PosInRange(x + 1, y, |a| + 2, width);
      var transposition := distances[Pos(x1, y1, width)] + (x - x1 - 1) + 1 + (y - y1 - 1);
      var substitution := distances[Pos(x, y, width)] + cost;
      var insertion := distances[Pos(x, y + 1, width)] + 1;
      var deletion := distances[Pos(x + 1, y, width)] + 1;
      var best := Min(Min(insertion, deletion), Min(substitution, transposition));
      assert best == d(x, y);
      ghost var before: seq<nat> := distances[..];
      distances[Pos(x + 1, y + 1, width)] := best;
      assert distances[..] ==
             before[Pos(x + 1, y + 1, width) := best];
      y := y + 1;
    }
  }

  /** The result is exactly the distance. */
  method EditDistance(first: Text, second: Text) returns (r: nat)
    ensures IsDistance(first, second, r)
  {
    var a, b := first, second;
    while a != [] && b != [] && a[0] == b[0]
      invariant forall x :: IsDistance(a, b, x) ==> IsDistance(first, second, x)
      decreases |a|
    {
      forall x | IsDistance(a[1..], b[1..], x)
        ensures IsDistance(a, b, x)
      {
        StripFirst(a, b, x);
      }
      a, b := a[1..], b[1..];
    }
    while a != [] && b != [] && a[|a| - 1] == b[|b| - 1]
      invariant forall x :: IsDistance(a, b, x) ==> IsDistance(first, second, x)
      decreases |a|
    {
      forall x | IsDistance(a[..|a| - 1], b[..|b| - 1], x)
        ensures IsDistance(a, b, x)
      {
        StripLast(a, b, x);
      }
      a, b := a[..|a| - 1], b[..|b| - 1];
    }
    if a == [] {
      EmptyDistance(a, b);
      return |b|;
    }
    if b == [] {
      EmptyDistance(a, b);
      return |a|;
    }
    r := FillTable(a, b);
  }
}
