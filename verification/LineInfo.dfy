/** Line numbers, packed as byte offsets from a baseline for every window of instructions. */
module LineInfo {
  import opened PowersOfTwo
  import opened ByteStrings
  import opened Results
  import opened ByteStream

  function Shr(i: nat, k: nat): nat {
    if k == 0 then i else Shr(i, k - 1) / 2
  }

  /** The window of `i` starts at a multiple of its size. */
  lemma {:induction false} ShrBounds(i: nat, k: nat)
    ensures Shr(i, k) * Pow2(k) <= i < (Shr(i, k) + 1) * Pow2(k)
    decreases k
  {
    if k > 0 {
      ShrBounds(i, k - 1);
      HalveBounds(i, Shr(i, k - 1), Pow2(k - 1));
    }
  }

  lemma HalveBounds(i: nat, h: nat, p: nat)
    requires h * p <= i < (h + 1) * p
    ensures h / 2 * (2 * p) <= i < (h / 2 + 1) * (2 * p)
  {
    var g := h / 2;
    assert h == 2 * g || h == 2 * g + 1;
    assert g * (2 * p) == (2 * g) * p;
    assert (g + 1) * (2 * p) == (2 * g + 2) * p;
    Monotone(2 * g, h, p);
    Monotone(h + 1, 2 * g + 2, p);
  }

  lemma Monotone(a: nat, b: nat, p: nat)
    requires a <= b
    ensures a * p <= b * p
  {
    assert (b - a) * p >= 0;
  }

  lemma ShrIs(i: nat, k: nat, q: nat)
    requires q * Pow2(k) <= i < (q + 1) * Pow2(k)
    ensures Shr(i, k) == q
  {
    ShrBounds(i, k);
    var s := Shr(i, k);
    if s < q {
      Monotone(s + 1, q, Pow2(k));
    } else if q < s {
      Monotone(q + 1, s, Pow2(k));
    }
  }

  /** What is in one window is in one larger window. */
  lemma {:induction false} SameLargerWindow(i: nat, j: nat, k: nat, k': nat)
    requires k <= k' && Shr(i, k) == Shr(j, k)
    ensures Shr(i, k') == Shr(j, k')
    decreases k'
  {
    if k < k' {
      SameLargerWindow(i, j, k, k' - 1);
    }
  }

  lemma {:induction false} ShrMonotone(i: nat, j: nat, k: nat)
    requires i <= j
    ensures Shr(i, k) <= Shr(j, k)
    decreases k
  {
    if k > 0 {
      ShrMonotone(i, j, k - 1);
    }
  }

  // ----- windows that fit a byte -----

  type Lines = seq<int>

  predicate Close(lines: Lines, i: nat, j: nat)
    requires i < |lines| && j < |lines|
  {
    lines[i] - lines[j] <= 255
  }

  /** In every aligned window of size `Pow2(k)` before `n` the lines differ by at most 255. */
  ghost predicate SpanOkUpTo(lines: Lines, k: nat, n: nat) {
    forall i: nat, j: nat :: i < |lines| && j < |lines| && i < n && j < n && Shr(i, k) == Shr(j, k) ==> Close(lines, i, j)
  }

  ghost predicate SpanOk(lines: Lines, k: nat) {
    SpanOkUpTo(lines, k, |lines|)
  }

  /** Shrinking the span keeps what was checked; one more window is checked. */
  lemma NextWindow(lines: Lines, k: nat, k': nat, q: nat, offset: nat, checked: nat)
    requires k' <= k && SpanOkUpTo(lines, k, offset) && offset == q * Pow2(k')
    requires forall i: nat, j: nat :: offset <= i < checked && offset <= j < checked && i < |lines| && j < |lines| ==> Close(lines, i, j)
    requires offset + Pow2(k') <= checked || checked >= |lines|
    ensures SpanOkUpTo(lines, k', offset + Pow2(k'))
  {
    forall i: nat, j: nat | i < |lines| && j < |lines| && i < offset + Pow2(k') && j < offset + Pow2(k') && Shr(i, k') == Shr(j, k')
      ensures Close(lines, i, j)
    {
      ShrBounds(i, k');
      ShrBounds(j, k');
      if i < offset && j < offset {
        SameLargerWindow(i, j, k', k);
      } else {
        Apart(i, j, q, Pow2(k'), Shr(i, k'));
      }
    }
  }

  /** A multiple of the window size is in no window with what is before it. */
  lemma Apart(i: nat, j: nat, q: nat, p: nat, s: nat)
    requires s * p <= i < (s + 1) * p && s * p <= j < (s + 1) * p
    requires i >= q * p || j >= q * p
    ensures i >= q * p && j >= q * p
  {
    if s < q {
      Monotone(s + 1, q, p);
    } else {
      Monotone(q, s, p);
    }
  }

  lemma {:induction false} Divides(k: nat, k': nat) returns (m: nat)
    requires k' <= k
    ensures Pow2(k) == m * Pow2(k')
    decreases k
  {
    if k == k' {
      m := 1;
    } else {
      var m' := Divides(k - 1, k');
      m := 2 * m';
    }
  }

  lemma Rescaled(offset: nat, q: nat, k: nat, k': nat) returns (q': nat)
    requires k' <= k && offset == q * Pow2(k)
    ensures offset == q' * Pow2(k')
  {
    var m := Divides(k, k');
    q' := q * m;
    assert q * (m * Pow2(k')) == (q * m) * Pow2(k');
  }

  lemma NextMultiple(q: nat, p: nat)
    ensures (q + 1) * p == q * p + p
  {
  }

  /** The greatest power of two up to `v`. */
  method Log2(v: nat) returns (r: nat)
    requires v > 0
    ensures Pow2(r) <= v < Pow2(r + 1)
  {
    r := 0;
    while v >= Pow2(r + 1)
      invariant Pow2(r) <= v
      decreases v - Pow2(r)
    {
      r := r + 1;
    }
  }

  lemma {:induction false} PowMonotone(a: nat, b: nat)
    ensures a <= b ==> Pow2(a) <= Pow2(b)
    ensures Pow2(a) <= Pow2(b) ==> a <= b
    decreases a + b
  {
    if a > 0 && b > 0 {
      PowMonotone(a - 1, b - 1);
    }
  }

  /** Scans one window; stops early where the lines get too far apart. */
  method Scan(lines: Lines, offset: nat, span: nat) returns (next: nat)
    requires offset < |lines| && span > 0
    ensures offset < next <= |lines| && next <= offset + span
    ensures forall i: nat, j: nat :: offset <= i < next && offset <= j < next ==> Close(lines, i, j)
    ensures next < |lines| && next < offset + span ==>
              exists i: nat :: offset <= i < next && !(Close(lines, i, next) && Close(lines, next, i))
  {
    next := offset;
    var min, max := lines[offset], lines[offset];
    ghost var least, greatest := offset, offset;
    while next < |lines| && next < offset + span
      invariant offset <= next <= |lines| && next <= offset + span && max - min <= 255
      invariant min <= lines[offset] <= max
      invariant offset <= least <= next && offset <= greatest <= next && least < |lines| && greatest < |lines|
      invariant (next > offset ==> least < next && greatest < next) && lines[least] == min && lines[greatest] == max
      invariant forall i :: offset <= i < next ==> min <= lines[i] <= max
    {
      ghost var low, high := least, greatest;
      least := if lines[next] < min then next else least;
      greatest := if lines[next] > max then next else greatest;
      min := if lines[next] < min then lines[next] else min;
      max := if lines[next] > max then lines[next] else max;
      if max - min > 255 {
        assert next > offset;
        assert if least == next then !Close(lines, high, next) else !Close(lines, next, low);
        break;
      }
      next := next + 1;
    }
  }

  /** A window that does not fit, found at a multiple of a larger span, is one of twice the size that is left. */
  lemma TooLarge(lines: Lines, k: nat, k': nat, q: nat, offset: nat, next: nat)
    requires offset == q * Pow2(k) && offset < next < |lines| && next - offset < Pow2(k) && Pow2(k') <= next - offset < Pow2(k' + 1)
    requires exists i: nat :: offset <= i < next && !(Close(lines, i, next) && Close(lines, next, i))
    ensures k' < k && !SpanOk(lines, k' + 1)
  {
    PowMonotone(k, k');
    var i: nat :| offset <= i < next && !(Close(lines, i, next) && Close(lines, next, i));
    var q' := Rescaled(offset, q, k, k' + 1);
    NextMultiple(q', Pow2(k' + 1));
    ShrIs(i, k' + 1, q');
    ShrIs(next, k' + 1, q');
  }

  /**
   The span shrinks whenever a window does not fit, and windows already scanned are not scanned again; still, at the end
   every window of the final size fits, and with twice the size not all of them would.
   */
  method FindSpan(lines: Lines) returns (logspan: nat)
    ensures logspan <= 24 && SpanOk(lines, logspan)
    ensures logspan == 24 || !SpanOk(lines, logspan + 1)
  {
    logspan := 24;
    var offset: nat := 0;
    ghost var q: nat := 0;
    while offset < |lines|
      invariant logspan <= 24 && offset == q * Pow2(logspan)
      invariant SpanOkUpTo(lines, logspan, offset) && (logspan == 24 || !SpanOk(lines, logspan + 1))
      decreases |lines| - offset
    {
      var span := Pow2(logspan);
      var next := Scan(lines, offset, span);
      ghost var k := logspan;
      if next < |lines| && next - offset < span {
        logspan := Log2(next - offset);
        TooLarge(lines, k, logspan, q, offset, next);
        q := Rescaled(offset, q, k, logspan);
      }
      NextWindow(lines, k, logspan, q, offset, next);
      NextMultiple(q, Pow2(logspan));
      offset := offset + Pow2(logspan);
      q := q + 1;
    }
  }

  // ----- the encoding -----

  /** Number of windows. */
  function Windows(n: nat, k: nat): nat
    requires n > 0
  {
    Shr(n - 1, k) + 1
  }

  /** The baselines are lower bounds, tight enough for a byte. */
  ghost predicate Fits(lines: Lines, k: nat, baseline: Lines) {
    && |lines| > 0 && |baseline| == Windows(|lines|, k)
    && forall i: nat :: i < |lines| ==> Shr(i, k) < |baseline| && 0 <= lines[i] - baseline[Shr(i, k)] <= 255
  }

  function Deltas(lines: Lines, k: nat, baseline: Lines): (r: seq<byte>)
    requires Fits(lines, k, baseline)
    ensures |r| == |lines|
  {
    seq(|lines|, i requires 0 <= i < |lines| => lines[i] - baseline[Shr(i, k)])
  }

  /** Each byte is the difference to the one before, wrapped around. */
  function WriteDeltas(ds: seq<byte>, last: byte): Bytes {
    if ds == [] then [] else [(ds[0] - last) % 256] + WriteDeltas(ds[1..], ds[0])
  }

  function WriteBaselines(bs: Lines, last: int): Bytes {
    if bs == [] then [] else WriteInt(bs[0] - last) + WriteBaselines(bs[1..], bs[0])
  }

  function WriteLineInfo(lines: Lines, k: nat, baseline: Lines): Bytes
    requires Fits(lines, k, baseline) && k < 256
  {
    [k] + WriteDeltas(Deltas(lines, k, baseline), 0) + WriteBaselines(baseline, 0)
  }

  // ----- the decoding of the loader, and the lookup of a line -----

  function ReadDeltas(data: Bytes, n: nat, last: byte): Reading<seq<byte>>
    decreases n
  {
    if n == 0 then Some(([], data))
    else if data == [] then None
    else
      var d := (last + data[0]) % 256;
      match ReadDeltas(data[1..], n - 1, d)
      case None => None
      case Some((ds, rest)) => Some(([d] + ds, rest))
  }

  function Signed(v: uint32): int {
    if v < 0x8000_0000 then v else v - TWO32
  }

  function ReadBaselines(data: Bytes, n: nat, last: int): Reading<Lines>
    decreases n
  {
    if n == 0 then Some(([], data))
    else
      match ReadInt(data)
      case None => None
      case Some((v, rest)) =>
        var b := last + Signed(v);
        match ReadBaselines(rest, n - 1, b)
        case None => None
        case Some((bs, end)) => Some(([b] + bs, end))
  }

  /** The line of every instruction: the baseline of its window and its byte. */
  function ReadLineInfo(data: Bytes, n: nat): Reading<Lines>
    requires n > 0
  {
    if data == [] then None else
      var k := data[0];
      match ReadDeltas(data[1..], n, 0)
      case None => None
      case Some((ds, mid)) =>
        match ReadBaselines(mid, Windows(n, k), 0)
        case None => None
        case Some((bs, rest)) =>
          if |ds| == n && |bs| == Windows(n, k) then Some((LinesOf(ds, k, bs), rest)) else None
  }

  function LinesOf(ds: seq<byte>, k: nat, bs: Lines): (r: Lines)
    requires |ds| > 0 && |bs| == Windows(|ds|, k)
  {
    seq(|ds|, i requires 0 <= i < |ds| =>
      ShrMonotone(i, |ds| - 1, k);
      bs[Shr(i, k)] + ds[i])
  }

  // ----- the round trip -----

  lemma Unwraps(d: byte, last: byte)
    ensures (last + (d - last) % 256) % 256 == d
  {
  }

  lemma {:induction false} DeltasReadBack(ds: seq<byte>, last: byte, rest: Bytes)
    ensures ReadDeltas(WriteDeltas(ds, last) + rest, |ds|, last) == Some((ds, rest))
    decreases |ds|
  {
    var data := WriteDeltas(ds, last) + rest;
    if ds == [] {
      assert data == rest;
    } else {
      assert data[1..] == WriteDeltas(ds[1..], ds[0]) + rest;
      Unwraps(ds[0], last);
      DeltasReadBack(ds[1..], ds[0], rest);
      assert [ds[0]] + ds[1..] == ds;
    }
  }

  predicate IsInt32(v: int) {
    -0x8000_0000 <= v < 0x8000_0000
  }

  /** Two lines of a file are never so far apart that their difference wraps around. */
  ghost predicate InRange(lines: Lines) {
    forall i :: 0 <= i < |lines| ==> 0 <= lines[i] < 0x8000_0000
  }

  lemma SignedBack(v: int)
    requires IsInt32(v)
    ensures Signed(v % TWO32) == v
  {
  }

  lemma {:induction false} BaselinesReadBack(bs: Lines, last: int, rest: Bytes)
    requires InRange(bs) && 0 <= last < 0x8000_0000
    ensures ReadBaselines(WriteBaselines(bs, last) + rest, |bs|, last) == Some((bs, rest))
    decreases |bs|
  {
    var data := WriteBaselines(bs, last) + rest;
    if bs == [] {
      assert data == rest;
    } else {
      var after := WriteBaselines(bs[1..], bs[0]) + rest;
      assert data == WriteInt(bs[0] - last) + after;
      IntReadsBack(bs[0] - last, after);
      SignedBack(bs[0] - last);
      BaselinesReadBack(bs[1..], bs[0], rest);
      assert [bs[0]] + bs[1..] == bs;
    }
  }

  /** Whatever follows, the loader recovers every line. */
  lemma LineInfoRoundTrip(lines: Lines, k: nat, baseline: Lines, rest: Bytes)
    requires Fits(lines, k, baseline) && k < 256 && InRange(baseline)
    ensures ReadLineInfo(WriteLineInfo(lines, k, baseline) + rest, |lines|) == Some((lines, rest))
  {
    var ds := Deltas(lines, k, baseline);
    var mid := WriteBaselines(baseline, 0) + rest;
    var data := WriteLineInfo(lines, k, baseline) + rest;
    assert data[1..] == WriteDeltas(ds, 0) + mid;
    DeltasReadBack(ds, 0, mid);
    BaselinesReadBack(baseline, 0, rest);
    assert LinesOf(ds, k, baseline) == lines;
  }

  // ----- writing -----

  /** The least line of every window. */
  ghost predicate LeastOf(lines: Lines, k: nat, baseline: Lines, n: nat) {
    && (forall i: nat :: i < |lines| && i < n && Shr(i, k) < |baseline| ==> baseline[Shr(i, k)] <= lines[i])
    && (forall w: nat :: w < |baseline| ==> Attained(lines, k, w, baseline[w]))
  }

  ghost predicate Attained(lines: Lines, k: nat, w: nat, line: int) {
    exists i: nat :: i < |lines| && Shr(i, k) == w && line == lines[i]
  }

  lemma LeastFits(lines: Lines, k: nat, baseline: Lines)
    requires |lines| > 0 && SpanOk(lines, k) && |baseline| == Windows(|lines|, k) && LeastOf(lines, k, baseline, |lines|)
    ensures Fits(lines, k, baseline)
    ensures InRange(lines) ==> InRange(baseline)
  {
    forall i: nat | i < |lines|
      ensures Shr(i, k) < |baseline| && 0 <= lines[i] - baseline[Shr(i, k)] <= 255
    {
      ShrMonotone(i, |lines| - 1, k);
      var j: nat :| j < |lines| && Shr(j, k) == Shr(i, k) && baseline[Shr(i, k)] == lines[j];
      assert Close(lines, i, j);
    }
  }

  /** The least line of one window. */
  method LeastInWindow(lines: Lines, k: nat, offset: nat, ghost q: nat) returns (min: int)
    requires offset < |lines| && offset == q * Pow2(k)
    ensures forall i: nat :: i < |lines| && Shr(i, k) == q ==> min <= lines[i]
    ensures Attained(lines, k, q, min)
  {
    var span := Pow2(k);
    min := lines[offset];
    var next := offset;
    ghost var at: nat := offset;
    while next < |lines| && next < offset + span
      invariant offset <= next <= |lines| && next <= offset + span
      invariant offset <= at < |lines| && at < offset + span && min == lines[at]
      invariant forall i: nat :: offset <= i < next ==> min <= lines[i]
    {
      if lines[next] < min {
        min := lines[next];
        at := next;
      }
      next := next + 1;
    }
    NextMultiple(q, span);
    ShrIs(at, k, q);
    forall i: nat | i < |lines| && Shr(i, k) == q
      ensures min <= lines[i]
    {
      ShrBounds(i, k);
    }
  }

  method FindBaselines(lines: Lines, k: nat) returns (baseline: Lines)
    requires |lines| > 0 && SpanOk(lines, k)
    ensures Fits(lines, k, baseline) && (InRange(lines) ==> InRange(baseline))
  {
    baseline := [];
    var offset: nat := 0;
    while offset < |lines|
      invariant offset == |baseline| * Pow2(k)
      invariant LeastOf(lines, k, baseline, |lines|)
      invariant |baseline| <= Windows(|lines|, k)
      decreases |lines| + Pow2(k) - offset
    {
      var min := LeastInWindow(lines, k, offset, |baseline|);
      NextMultiple(|baseline|, Pow2(k));
      ShrIs(offset, k, |baseline|);
      ShrMonotone(offset, |lines| - 1, k);
      LeastNext(lines, k, baseline, min);
      baseline := baseline + [min];
      offset := offset + Pow2(k);
    }
    AllWindows(lines, k, |baseline|);
    LeastFits(lines, k, baseline);
  }

  lemma LeastNext(lines: Lines, k: nat, baseline: Lines, min: int)
    requires LeastOf(lines, k, baseline, |lines|)
    requires forall i: nat :: i < |lines| && Shr(i, k) == |baseline| ==> min <= lines[i]
    requires Attained(lines, k, |baseline|, min)
    ensures LeastOf(lines, k, baseline + [min], |lines|)
  {
    var b := baseline + [min];
    forall i: nat | i < |lines| && Shr(i, k) < |b|
      ensures b[Shr(i, k)] <= lines[i]
    {
      if Shr(i, k) < |baseline| {
        assert baseline[Shr(i, k)] <= lines[i];
      }
    }
  }

  lemma AllWindows(lines: Lines, k: nat, n: nat)
    requires |lines| > 0 && n * Pow2(k) >= |lines| && n <= Windows(|lines|, k)
    ensures n == Windows(|lines|, k)
  {
    ShrBounds(|lines| - 1, k);
    NotBelow(n, Shr(|lines| - 1, k), Pow2(k), |lines| - 1);
  }

  lemma NotBelow(n: nat, w: nat, p: nat, last: nat)
    requires w * p <= last < n * p
    ensures w < n
  {
    if n <= w {
      Monotone(n, w, p);
    }
  }

  /** Appends the line info, and returns the span and the baselines that it uses. */
  method AppendLineInfo(ss: Bytes, lines: Lines) returns (r: Bytes, k: nat, baseline: Lines)
    requires |lines| > 0
    ensures Fits(lines, k, baseline) && k <= 24 && (InRange(lines) ==> InRange(baseline))
    ensures r == ss + WriteLineInfo(lines, k, baseline)
  {
    var logspan := FindSpan(lines);
    var bs := FindBaselines(lines, logspan);
    k, baseline := logspan, bs;
    r := ss + [logspan];
    r := AppendDeltas(r, lines, logspan, bs);
    r := AppendBaselines(r, bs);
    assert ss + [logspan] + WriteDeltas(Deltas(lines, k, baseline), 0) + WriteBaselines(baseline, 0) ==
           ss + WriteLineInfo(lines, k, baseline);
  }

  lemma {:induction false} WriteDeltasSnoc(ds: seq<byte>, d: byte, last: byte)
    ensures WriteDeltas(ds + [d], last) == WriteDeltas(ds, last) + [(d - (if ds == [] then last else ds[|ds| - 1])) % 256]
    decreases |ds|
  {
    if ds == [] {
      assert [d][1..] == [];
    } else {
      assert (ds + [d])[1..] == ds[1..] + [d];
      WriteDeltasSnoc(ds[1..], d, ds[0]);
    }
  }

  method AppendDeltas(ss: Bytes, lines: Lines, logspan: nat, baseline: Lines) returns (r: Bytes)
    requires Fits(lines, logspan, baseline)
    ensures r == ss + WriteDeltas(Deltas(lines, logspan, baseline), 0)
  {
    r := ss;
    var lastOffset: byte := 0;
    ghost var ds := Deltas(lines, logspan, baseline);
    for i := 0 to |lines|
      invariant r == ss + WriteDeltas(ds[..i], 0)
      invariant lastOffset == if i == 0 then 0 else ds[i - 1]
    {
      var delta := lines[i] - baseline[Shr(i, logspan)];
      assert delta == ds[i];
      WriteDeltasSnoc(ds[..i], ds[i], 0);
      assert ds[..i + 1] == ds[..i] + [ds[i]];
      r := r + [(delta - lastOffset) % 256];
      lastOffset := delta;
    }
    assert ds[..|lines|] == ds;
  }

  lemma {:induction false} WriteBaselinesSnoc(bs: Lines, b: int, last: int)
    ensures WriteBaselines(bs + [b], last) == WriteBaselines(bs, last) + WriteInt(b - if bs == [] then last else bs[|bs| - 1])
    decreases |bs|
  {
    if bs == [] {
      assert [b][1..] == [];
    } else {
      assert (bs + [b])[1..] == bs[1..] + [b];
      WriteBaselinesSnoc(bs[1..], b, bs[0]);
    }
  }

  method AppendBaselines(ss: Bytes, baseline: Lines) returns (r: Bytes)
    ensures r == ss + WriteBaselines(baseline, 0)
  {
    r := ss;
    var lastLine := 0;
    for i := 0 to |baseline|
      invariant r == ss + WriteBaselines(baseline[..i], 0)
      invariant lastLine == if i == 0 then 0 else baseline[i - 1]
    {
      WriteBaselinesSnoc(baseline[..i], baseline[i], 0);
      assert baseline[..i + 1] == baseline[..i] + [baseline[i]];
      r := r + WriteInt(baseline[i] - lastLine);
      lastLine := baseline[i];
    }
    assert baseline[..|baseline|] == baseline;
  }
}
