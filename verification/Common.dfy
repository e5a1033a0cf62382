/** Results of operations that the source can abort with an exception. */
module Results {

  datatype Result<+T, +E> = Ok(value: T) | Err(error: E) {
    predicate IsFailure() {
      Err?
    }

    function PropagateFailure<U>(): Result<U, E>
      requires Err?
    {
      Err(error)
    }

    function GetOr(default: T): T {
      if Ok? then value else default
    }

    function Extract(): T
      requires Ok?
    {
      value
    }
  }

  datatype Option<+T> = None | Some(value: T) {
    predicate IsFailure() {
      None?
    }

    function PropagateFailure<U>(): Option<U>
      requires None?
    {
      None
    }

    function Extract(): T
      requires Some?
    {
      value
    }
  }
}

module PowersOfTwo {

  function Pow2(n: nat): (r: nat)
    ensures r > 0
  {
    if n == 0 then 1 else 2 * Pow2(n - 1)
  }

  lemma {:induction false} PowSplit(a: nat, b: nat)
    ensures Pow2(a + b) == Pow2(a) * Pow2(b)
    decreases a
  {
    if a > 0 {
      PowSplit(a - 1, b);
    }
  }

  /** Bit `j` of a number, the lowest one first. */
  function Bit(n: nat, j: nat): nat {
    n / Pow2(j) % 2
  }

  lemma HalfBit(n: nat, j: nat)
    requires j > 0
    ensures Bit(n, j) == Bit(n / 2, j - 1)
  {
    DivProduct(n, 2, Pow2(j - 1));
  }

  lemma DivOf(n: int, d: nat, q: int, r: nat)
    requires r < d && n == d * q + r
    ensures n / d == q
  {
    var k := n / d;
    assert n == d * k + n % d;
    assert d * (q - k) == n % d - r;
    if q > k {
      ProductAtLeast(d, q - k);
    } else if k > q {
      ProductAtLeast(d, k - q);
    }
  }

  lemma ProductAtLeast(d: nat, k: nat)
    requires k > 0
    ensures d * k >= d
  {
  }

  lemma DivProduct(n: int, a: nat, b: nat)
    requires a > 0 && b > 0
    ensures n / (a * b) == n / a / b
  {
    var m := n / a;
    var q, r, p := m / b, m % b, n % a;
    ProductLeft(a, b, r, p);
    ProductSum(a, b, q, r);
    DivOf(n, a * b, q, a * r + p);
  }

  lemma ProductLeft(a: nat, b: nat, r: nat, p: nat)
    requires r < b && p < a
    ensures 0 <= a * r + p < a * b
  {
    ProductAtLeast(a, b - r);
    assert a * (b - r) == a * b - a * r;
  }

  lemma ProductSum(a: int, b: int, q: int, r: int)
    ensures a * (b * q + r) == a * b * q + a * r
  {
  }
}

module Sequences {

  lemma Assoc<T>(a: seq<T>, b: seq<T>, c: seq<T>)
    ensures (a + b) + c == a + (b + c)
  {
  }
}

module ByteStrings {

  type byte = n: nat | n < 256

  type Bytes = seq<byte>

  function Joined(pieces: seq<Bytes>): Bytes {
    if pieces == [] then [] else pieces[0] + Joined(pieces[1..])
  }
}
