/** The primitive writers, and the readers that undo them. */
module ByteStream {
  import opened ByteStrings
  import opened Results

  type uint32 = n: nat | n < 0x1_0000_0000

  const TWO32 := 0x1_0000_0000

  /** A reader gives a value and what comes after it. */
  type Reading<T> = Option<(T, Bytes)>

  function ReadByte(data: Bytes): Reading<byte> {
    if data == [] then None else Some((data[0], data[1..]))
  }

  function ReadBytes(data: Bytes, n: nat): Reading<Bytes> {
    if n <= |data| then Some((data[..n], data[n..])) else None
  }

  lemma BytesReadBack(b: Bytes, rest: Bytes)
    ensures ReadBytes(b + rest, |b|) == Some((b, rest))
  {
    assert (b + rest)[..|b|] == b && (b + rest)[|b|..] == rest;
  }

  lemma ByteReadsBack(b: byte, rest: Bytes)
    ensures ReadByte([b] + rest) == Some((b, rest))
  {
    assert ([b] + rest)[1..] == rest;
  }

  // ----- four bytes, least significant first -----

  function WriteInt(v: int): (r: Bytes)
    ensures |r| == 4
  {
    var a := v / 256;
    var b := a / 256;
    [v % 256, a % 256, b % 256, b / 256 % 256]
  }

  function ReadInt(data: Bytes): Reading<uint32> {
    if |data| < 4 then None
    else Some((data[0] as int + 256 * data[1] as int + 0x1_0000 * data[2] as int + 0x100_0000 * data[3] as int, data[4..]))
  }

  lemma Digit(v: int)
    ensures v == 256 * (v / 256) + v % 256
  {
  }

  lemma RemainderIs(v: int, q: int, r: int)
    requires v == TWO32 * q + r && 0 <= r < TWO32
    ensures v % TWO32 == r
  {
  }

  /** A word reads back modulo its width: a negative number as its two's complement. */
  lemma IntReadsBack(v: int, rest: Bytes)
    ensures ReadInt(WriteInt(v) + rest) == Some((v % TWO32, rest))
  {
    var a := v / 256;
    var b := a / 256;
    var c := b / 256;
    Digit(v);
    Digit(a);
    Digit(b);
    Digit(c);
    var low := v % 256 + 256 * (a % 256) + 0x1_0000 * (b % 256) + 0x100_0000 * (c % 256);
    RemainderIs(v, c / 256, low);
    var data := WriteInt(v) + rest;
    assert data[4..] == rest;
    assert data[0] == v % 256 && data[1] == a % 256 && data[2] == b % 256 && data[3] == c % 256;
  }

  // ----- seven bits at a time -----

  function WriteVarInt(v: nat): (r: Bytes)
    ensures |r| > 0
  {
    if v < 128 then [v] else [v % 128 + 128] + WriteVarInt(v / 128)
  }

  /** The value of the bytes read, from the last one with the top bit clear. */
  function ReadVarInt(data: Bytes): Reading<nat> {
    if data == [] then None
    else if data[0] < 128 then Some((data[0], data[1..]))
    else
      match ReadVarInt(data[1..])
      case None => None
      case Some((high, rest)) => Some((data[0] - 128 + 128 * high, rest))
  }

  lemma {:induction false} VarIntReadsBack(v: nat, rest: Bytes)
    ensures ReadVarInt(WriteVarInt(v) + rest) == Some((v, rest))
    decreases v
  {
    var data := WriteVarInt(v) + rest;
    if v < 128 {
      assert data[1..] == rest;
    } else {
      VarIntReadsBack(v / 128, rest);
      assert data[1..] == WriteVarInt(v / 128) + rest;
    }
  }

  /** A 32-bit value takes at most five bytes. */
  lemma VarIntLength(v: uint32)
    ensures |WriteVarInt(v)| <= 5
  {
    var a := v / 128;
    var b := a / 128;
    var c := b / 128;
    var d := c / 128;
    assert d < 128;
    assert |WriteVarInt(d)| == 1;
    assert |WriteVarInt(c)| <= 2 && |WriteVarInt(b)| <= 3 && |WriteVarInt(a)| <= 4;
  }

  // ----- lists -----

  /** How a list of anything is written, item by item. */
  function WriteItems<T>(write: T -> Bytes, items: seq<T>): Bytes {
    if items == [] then [] else write(items[0]) + WriteItems(write, items[1..])
  }

  function ReadItems<T>(read: Bytes -> Reading<T>, n: nat, data: Bytes): Reading<seq<T>>
    decreases n
  {
    if n == 0 then Some(([], data))
    else
      match read(data)
      case None => None
      case Some((x, rest)) =>
        match ReadItems(read, n - 1, rest)
        case None => None
        case Some((xs, end)) => Some(([x] + xs, end))
  }

  /** Each of the items reads back, whatever follows. */
  ghost predicate ReadsBack<T>(read: Bytes -> Reading<T>, write: T -> Bytes, x: T) {
    forall rest: Bytes :: read(write(x) + rest) == Some((x, rest))
  }

  lemma {:induction false} ItemsReadBack<T>(read: Bytes -> Reading<T>, write: T -> Bytes, items: seq<T>, rest: Bytes)
    requires forall x <- items :: ReadsBack(read, write, x)
    ensures ReadItems(read, |items|, WriteItems(write, items) + rest) == Some((items, rest))
    decreases |items|
  {
    if items == [] {
      assert WriteItems(write, items) + rest == rest;
    } else {
      var x, xs := items[0], items[1..];
      assert x in items && forall y <- xs :: y in items;
      var after := WriteItems(write, xs) + rest;
      assert WriteItems(write, items) + rest == write(x) + after;
      assert ReadsBack(read, write, x);
      ItemsReadBack(read, write, xs, rest);
      assert [x] + xs == items;
    }
  }

  /** A list with its length in front. */
  function WriteList<T>(write: T -> Bytes, items: seq<T>): Bytes {
    WriteVarInt(|items|) + WriteItems(write, items)
  }

  function ReadList<T>(read: Bytes -> Reading<T>, data: Bytes): Reading<seq<T>> {
    match ReadVarInt(data)
    case None => None
    case Some((n, rest)) => ReadItems(read, n, rest)
  }

  lemma ListReadsBack<T>(read: Bytes -> Reading<T>, write: T -> Bytes, items: seq<T>, rest: Bytes)
    requires forall x <- items :: ReadsBack(read, write, x)
    ensures ReadList(read, WriteList(write, items) + rest) == Some((items, rest))
  {
    var after := WriteItems(write, items) + rest;
    assert WriteList(write, items) + rest == WriteVarInt(|items|) + after;
    VarIntReadsBack(|items|, after);
    ItemsReadBack(read, write, items, rest);
  }

  // ----- blobs -----

  /** The bytes of a value, in the only sense that matters: the reader reads it off them. */
  ghost predicate Holds<T>(read: Bytes -> Reading<T>, blob: Bytes, x: T) {
    forall rest: Bytes :: read(blob + rest) == Some((x, rest))
  }

  lemma {:induction false} JoinedSnoc(blobs: seq<Bytes>, b: Bytes)
    ensures Joined(blobs + [b]) == Joined(blobs) + b
    decreases |blobs|
  {
    if blobs == [] {
      assert [b][1..] == [];
    } else {
      assert (blobs + [b])[1..] == blobs[1..] + [b];
      JoinedSnoc(blobs[1..], b);
    }
  }

  ghost predicate AllHold<T>(read: Bytes -> Reading<T>, blobs: seq<Bytes>, xs: seq<T>) {
    if blobs == [] || xs == [] then |blobs| == |xs|
    else Holds(read, blobs[0], xs[0]) && AllHold(read, blobs[1..], xs[1..])
  }

  lemma {:induction false} AllHoldSnoc<T>(read: Bytes -> Reading<T>, blobs: seq<Bytes>, xs: seq<T>, blob: Bytes, x: T)
    requires AllHold(read, blobs, xs) && Holds(read, blob, x)
    ensures AllHold(read, blobs + [blob], xs + [x])
    decreases |blobs|
  {
    if blobs == [] {
      assert [blob][1..] == [] && [x][1..] == [];
    } else {
      assert (blobs + [blob])[1..] == blobs[1..] + [blob] && (xs + [x])[1..] == xs[1..] + [x];
      AllHoldSnoc(read, blobs[1..], xs[1..], blob, x);
    }
  }

  lemma {:induction false} AllHoldLength<T>(read: Bytes -> Reading<T>, blobs: seq<Bytes>, xs: seq<T>)
    requires AllHold(read, blobs, xs)
    ensures |blobs| == |xs|
    decreases |blobs|
  {
    if blobs != [] && xs != [] {
      AllHoldLength(read, blobs[1..], xs[1..]);
    }
  }

  /** Blobs in a row are read one after the other. */
  lemma {:induction false} BlobsReadBack<T>(read: Bytes -> Reading<T>, blobs: seq<Bytes>, xs: seq<T>, rest: Bytes)
    requires AllHold(read, blobs, xs)
    ensures ReadItems(read, |xs|, Joined(blobs) + rest) == Some((xs, rest))
    decreases |xs|
  {
    AllHoldLength(read, blobs, xs);
    if xs == [] {
      assert Joined(blobs) + rest == rest;
    } else {
      var after := Joined(blobs[1..]) + rest;
      assert Joined(blobs) + rest == blobs[0] + after;
      BlobsReadBack(read, blobs[1..], xs[1..], rest);
      assert Holds(read, blobs[0], xs[0]);
      assert [xs[0]] + xs[1..] == xs;
    }
  }
}
