/** Frames of RFC 6455 as byte strings, and what an endpoint makes of a stream of them. */
module WebSocketFrames {
  import opened PowersOfTwo
  import opened ByteStrings
  import opened Results

  // ----- masking -----

  /** Exclusive or of the low `n` bits. */
  function XorBits(n: nat, a: nat, b: nat): (r: nat)
    ensures r < Pow2(n)
  {
    if n == 0 then 0 else 2 * XorBits(n - 1, a / 2, b / 2) + (a % 2 + b % 2) % 2
  }

  function Xor(a: byte, b: byte): byte {
    assert Pow2(8) == 256;
    XorBits(8, a, b)
  }

  lemma XorBitsStep(n: nat, a: nat, k: nat, y: nat, p: nat)
    requires n > 0 && y == XorBits(n - 1, a / 2, k / 2) && p == (a % 2 + k % 2) % 2
    ensures XorBits(n, a, k) == 2 * y + p
  {
  }

  lemma {:induction false} XorBitsTwice(n: nat, a: nat, k: nat, r: nat)
    requires a < Pow2(n) && r == XorBits(n, a, k)
    ensures XorBits(n, r, k) == a
    decreases n
  {
    if n > 0 {
      var y, p := XorBits(n - 1, a / 2, k / 2), (a % 2 + k % 2) % 2;
      XorBitsStep(n, a, k, y, p);
      Halves(y, p);
      XorBitsTwice(n - 1, a / 2, k / 2, y);
      BitTwice(a % 2, k % 2);
      XorBitsStep(n, r, k, a / 2, a % 2);
    }
  }

  lemma Halves(y: nat, p: nat)
    requires p < 2
    ensures (2 * y + p) / 2 == y && (2 * y + p) % 2 == p
  {
  }

  lemma BitTwice(a: nat, k: nat)
    requires a < 2 && k < 2
    ensures ((a + k) % 2 + k) % 2 == a
  {
  }

  lemma {:induction false} XorBitsZero(n: nat, a: nat)
    requires a < Pow2(n)
    ensures XorBits(n, a, 0) == a
  {
    if n > 0 {
      XorBitsZero(n - 1, a / 2);
    }
  }

  type Key = k: Bytes | |k| == 4 witness [0, 0, 0, 0]

  const NO_KEY: Key := [0, 0, 0, 0]
  const CLIENT_KEY: Key := [0x12, 0x34, 0x56, 0x78]

  function Masked(data: Bytes, key: Key): (r: Bytes)
    ensures |r| == |data|
  {
    seq(|data|, i requires 0 <= i < |data| => Xor(data[i], key[i % 4]))
  }

  /** Masking again with the same key gives the data back. */
  lemma MaskedTwice(data: Bytes, key: Key)
    ensures Masked(Masked(data, key), key) == data
  {
    forall i | 0 <= i < |data|
      ensures Masked(Masked(data, key), key)[i] == data[i]
    {
      assert Pow2(8) == 256;
      XorBitsTwice(8, data[i], key[i % 4], Xor(data[i], key[i % 4]));
    }
  }

  lemma MaskedZero(data: Bytes)
    ensures Masked(data, NO_KEY) == data
  {
    forall i | 0 <= i < |data|
      ensures Masked(data, NO_KEY)[i] == data[i]
    {
      assert Pow2(8) == 256;
      XorBitsZero(8, data[i]);
    }
  }

  // ----- numbers in network byte order -----

  function BigEndian(n: nat, size: nat): (r: Bytes)
    ensures |r| == size
    decreases size
  {
    if size == 0 then [] else BigEndian(n / 256, size - 1) + [n % 256]
  }

  function Number(b: Bytes): nat
    decreases |b|
  {
    if b == [] then 0 else 256 * Number(b[..|b| - 1]) + b[|b| - 1]
  }

  function Pow256(n: nat): nat {
    if n == 0 then 1 else 256 * Pow256(n - 1)
  }

  lemma {:induction false} NumberReadsBack(n: nat, size: nat)
    requires n < Pow256(size)
    ensures Number(BigEndian(n, size)) == n
    decreases size
  {
    if size > 0 {
      NumberReadsBack(n / 256, size - 1);
      var b := BigEndian(n, size);
      assert b[..size - 1] == BigEndian(n / 256, size - 1);
    }
  }

  // ----- frames -----

  const CONTINUATION: nat := 0
  const TEXT_FRAME: nat := 1
  const BINARY_FRAME: nat := 2
  const CLOSE: nat := 8
  const PING: nat := 9
  const PONG: nat := 10

  /** A frame and how it was masked; the payload is what was meant. */
  datatype Frame = Frame(fin: bool, reserved: nat, opcode: nat, key: Option<Key>, payload: Bytes)

  const TOO_LONG: nat := 0x8000_0000_0000_0000

  predicate Encodable(f: Frame) {
    f.reserved < 8 && f.opcode < 16 && |f.payload| < TOO_LONG
  }

  /** How many bytes of length follow the seven bits. */
  function ExtendedSize(n: nat): nat {
    if n < 126 then 0 else if n < 65536 then 2 else 8
  }

  function LengthField(n: nat): (r: Bytes)
    requires n < TOO_LONG
    ensures |r| == 1 + ExtendedSize(n)
  {
    [if n < 126 then n else if n < 65536 then 126 else 127] + BigEndian(n, ExtendedSize(n))
  }

  function KeyOf(f: Frame): Bytes {
    if f.key.Some? then f.key.value else []
  }

  function MaskBit(f: Frame): nat {
    if f.key.Some? then 128 else 0
  }

  function Header(f: Frame): (r: Bytes)
    requires Encodable(f)
    ensures |r| >= 2
  {
    var l := LengthField(|f.payload|);
    [(if f.fin then 128 else 0) + 16 * f.reserved + f.opcode] + [l[0] + MaskBit(f)] + l[1..] + KeyOf(f)
  }

  function Encode(f: Frame): (r: Bytes)
    requires Encodable(f)
    ensures |r| >= 2
  {
    Header(f) + Body(f)
  }

  // ----- reading one frame -----

  datatype Parsed = NeedMore | BadLength | Whole(frame: Frame, size: nat)

  function HeaderSize(n0: nat, mask: bool): nat {
    2 + (if n0 == 126 then 2 else 0) + (if n0 == 127 then 8 else 0) + (if mask then 4 else 0)
  }

  function LengthSize(n0: nat): nat {
    if n0 < 126 then 2 else if n0 == 126 then 4 else 10
  }

  function Parse(data: Bytes): (r: Parsed)
    ensures r.Whole? ==> 2 <= r.size <= |data|
  {
    if |data| < 2 then NeedMore else
      var mask, n0 := data[1] >= 128, data[1] % 128;
      var headerSize := HeaderSize(n0, mask);
      if |data| < headerSize then NeedMore else
        var i := LengthSize(n0);
        var n := if n0 < 126 then n0 else Number(data[2..i]);
        if n0 == 127 && n >= TOO_LONG then BadLength
        else if |data| < headerSize + n then NeedMore
        else
          var key := if mask then data[i..i + 4] else NO_KEY;
          Whole(Frame(data[0] >= 128, data[0] / 16 % 8, data[0] % 16, if mask then Some(key) else None,
                      Masked(data[headerSize..headerSize + n], key)),
                headerSize + n)
  }

  /** What a whole header says, from its fields. */
  lemma HeaderIsParsed(data: Bytes, mask: bool, n0: nat, headerSize: nat, n: nat, i: nat)
    requires 2 <= |data| && mask == (data[1] >= 128) && n0 == data[1] % 128
    requires headerSize == HeaderSize(n0, mask) <= |data| && i == LengthSize(n0)
    requires n == if n0 < 126 then n0 else Number(data[2..i])
    ensures headerSize == i + if mask then 4 else 0
    ensures
      Parse(data) ==
      if n0 == 127 && n >= TOO_LONG then BadLength
      else if |data| < headerSize + n then NeedMore
      else
        var key := if mask then data[i..i + 4] else NO_KEY;
        Whole(Frame(data[0] >= 128, data[0] / 16 % 8, data[0] % 16, if mask then Some(key) else None,
                    Masked(data[headerSize..headerSize + n], key)),
              headerSize + n)
  {
  }

  /** More data does not change what the data so far says. */
  lemma ParseMore(data: Bytes, more: Bytes)
    requires !Parse(data).NeedMore?
    ensures Parse(data + more) == Parse(data)
  {
    var n0, mask := data[1] % 128, data[1] >= 128;
    var i, headerSize := LengthSize(n0), HeaderSize(n0, mask);
    assert headerSize == i + if mask then 4 else 0;
    var all := data + more;
    SliceOfMore(data, more, 2, i);
    if mask {
      SliceOfMore(data, more, i, headerSize);
    }
    if Parse(data).Whole? {
      SliceOfMore(data, more, headerSize, Parse(data).size);
    }
  }

  lemma SliceOfMore(data: Bytes, more: Bytes, i: nat, j: nat)
    requires i <= j <= |data|
    ensures (data + more)[i..j] == data[i..j]
  {
  }

  lemma HeaderParts(f: Frame)
    requires Encodable(f)
    ensures
      var h, l := Header(f), LengthField(|f.payload|);
      && h[0] == (if f.fin then 128 else 0) + 16 * f.reserved + f.opcode
      && h[1] == l[0] + MaskBit(f)
      && |h| == 1 + |l| + |KeyOf(f)|
      && h[2..1 + |l|] == l[1..]
      && h[1 + |l|..] == KeyOf(f)
  {
  }

  function Body(f: Frame): Bytes {
    if f.key.Some? then Masked(f.payload, f.key.value) else f.payload
  }

  /** Where the parts of an encoded frame are. */
  ghost predicate Lays(data: Bytes, f: Frame, h: Bytes, i: nat)
    requires Encodable(f)
  {
    var l := LengthField(|f.payload|);
    && i == 1 + |l| && |h| == i + |KeyOf(f)| && |h| + |f.payload| <= |data|
    && data[0] == (if f.fin then 128 else 0) + 16 * f.reserved + f.opcode
    && data[1] == l[0] + MaskBit(f)
    && data[2..i] == l[1..]
    && data[i..|h|] == KeyOf(f)
    && data[|h|..|h| + |f.payload|] == Body(f)
  }

  lemma EncodedLays(f: Frame, rest: Bytes)
    requires Encodable(f)
    ensures Lays(Encode(f) + rest, f, Header(f), 1 + |LengthField(|f.payload|)|)
  {
    HeaderParts(f);
    var h, body := Header(f), Body(f);
    var data := h + body + rest;
    assert Encode(f) + rest == data;
    assert data[..|h|] == h;
    assert data[2..1 + |LengthField(|f.payload|)|] == h[2..1 + |LengthField(|f.payload|)|];
    assert data[1 + |LengthField(|f.payload|)|..|h|] == h[1 + |LengthField(|f.payload|)|..];
  }

  /** The two length fields agree. */
  lemma LengthByte(f: Frame)
    requires Encodable(f)
    ensures
      var n, l := |f.payload|, LengthField(|f.payload|);
      && l[0] < 128 && l[0] == (if n < 126 then n else if n < 65536 then 126 else 127)
      && LengthSize(l[0]) == 1 + |l|
      && (n < 126 ==> l[0] == n)
  {
  }

  lemma LaidHeader(data: Bytes, f: Frame, h: Bytes, i: nat) returns (n0: nat)
    requires Encodable(f) && Lays(data, f, h, i)
    ensures
      var n := |f.payload|;
      && 2 <= |data| && (data[1] >= 128 <==> f.key.Some?) && n0 == data[1] % 128
      && HeaderSize(n0, f.key.Some?) == |h| <= |data| && i == LengthSize(n0)
      && n == (if n0 < 126 then n0 else Number(data[2..i])) && n < TOO_LONG
  {
    LengthByte(f);
    LengthReadsBack(|f.payload|);
    n0 := LengthField(|f.payload|)[0];
  }

  lemma LaidPayload(data: Bytes, f: Frame, h: Bytes, i: nat)
    requires Encodable(f) && Lays(data, f, h, i)
    ensures f.key.Some? ==> data[i..i + 4] == f.key.value
    ensures Masked(data[|h|..|h| + |f.payload|], if f.key.Some? then f.key.value else NO_KEY) == f.payload
  {
    if f.key.Some? {
      MaskedTwice(f.payload, f.key.value);
    } else {
      MaskedZero(f.payload);
    }
  }

  lemma LaidParses(data: Bytes, f: Frame, h: Bytes, i: nat)
    requires Encodable(f) && Lays(data, f, h, i)
    ensures Parse(data) == Whole(f, |h| + |f.payload|)
  {
    var n0 := LaidHeader(data, f, h, i);
    LaidPayload(data, f, h, i);
    HeaderIsParsed(data, f.key.Some?, n0, |h|, |f.payload|, i);
    FirstByte(f);
  }

  lemma FirstByte(f: Frame)
    requires Encodable(f)
    ensures
      var b := (if f.fin then 128 else 0) + 16 * f.reserved + f.opcode;
      (b >= 128 <==> f.fin) && b / 16 % 8 == f.reserved && b % 16 == f.opcode
  {
  }

  /** Reading undoes writing, whatever follows. */
  lemma ParseUndoesEncode(f: Frame, rest: Bytes)
    requires Encodable(f)
    ensures Parse(Encode(f) + rest) == Whole(f, |Encode(f)|)
  {
    EncodedLays(f, rest);
    LaidParses(Encode(f) + rest, f, Header(f), 1 + |LengthField(|f.payload|)|);
  }

  lemma LengthReadsBack(n: nat)
    requires n < TOO_LONG
    ensures n >= 126 ==> Number(LengthField(n)[1..]) == n
  {
    assert Pow256(2) == 65536;
    assert Pow256(8) == 0x1_0000_0000_0000_0000;
    if n >= 126 {
      NumberReadsBack(n, ExtendedSize(n));
      assert LengthField(n)[1..] == BigEndian(n, ExtendedSize(n));
    }
  }

  // ----- the bytes of a frame, bit by bit -----

  lemma {:induction false} XorBit(n: nat, a: nat, b: nat, j: nat)
    requires j < n
    ensures Bit(XorBits(n, a, b), j) == (Bit(a, j) + Bit(b, j)) % 2
    decreases n
  {
    var y, p := XorBits(n - 1, a / 2, b / 2), (a % 2 + b % 2) % 2;
    Halves(y, p);
    assert Pow2(0) == 1;
    if j > 0 {
      XorBit(n - 1, a / 2, b / 2, j - 1);
      HalfBit(2 * y + p, j);
      HalfBit(a, j);
      HalfBit(b, j);
    }
  }

  /** Every digit of a number in network byte order. */
  lemma {:induction false} BigEndianByte(n: nat, size: nat, k: nat)
    requires k < size
    ensures BigEndian(n, size)[k] == n / Pow2(8 * (size - 1 - k)) % 256
    decreases size
  {
    assert Pow2(0) == 1 && Pow2(8) == 256;
    if k < size - 1 {
      BigEndianByte(n / 256, size - 1, k);
      PowSplit(8, 8 * (size - 2 - k));
      DivProduct(n, 256, Pow2(8 * (size - 2 - k)));
    }
  }

  /** What is masked, bit by bit. */
  lemma MaskedBit(data: Bytes, key: Key, i: nat, j: nat)
    requires i < |data| && j < 8
    ensures Bit(Masked(data, key)[i], j) == (Bit(data[i], j) + Bit(key[i % 4], j)) % 2
  {
    XorBit(8, data[i], key[i % 4], j);
  }

  // The bytes of an encoded frame, as section 5.2 of RFC 6455 lays them out.

  /** The final bit, the reserved bits and the opcode; the mask bit and the length, or how many bytes of it follow; the key. */
  lemma EncodedHeader(f: Frame)
    requires Encodable(f)
    ensures
      var b, n, size := Encode(f), |f.payload|, if |f.payload| < 126 then 0 else if |f.payload| < 65536 then 2 else 8;
      && |b| == 2 + size + (if f.key.Some? then 4 else 0) + n
      && b[0] / 128 == (if f.fin then 1 else 0) && b[0] / 16 % 8 == f.reserved && b[0] % 16 == f.opcode
      && b[1] / 128 == (if f.key.Some? then 1 else 0)
      && b[1] % 128 == (if n < 126 then n else if n < 65536 then 126 else 127)
      && (f.key.Some? ==> b[2 + size..6 + size] == f.key.value)
  {
    var b, h, size := Encode(f), Header(f), ExtendedSize(|f.payload|);
    HeaderParts(f);
    assert b[0] == h[0] && b[1] == h[1];
    if f.key.Some? {
      assert b[2 + size..6 + size] == h[2 + size..];
    }
  }

  /** A longer length comes most significant byte first. */
  lemma EncodedLength(f: Frame, k: nat)
    requires Encodable(f) && 126 <= |f.payload| && k < if |f.payload| < 65536 then 2 else 8
    ensures
      var n := |f.payload|;
      |Encode(f)| > 2 + k && Encode(f)[2 + k] == n / Pow2(8 * ((if n < 65536 then 1 else 7) - k)) % 256
  {
    LengthAt(f, k);
    BigEndianByte(|f.payload|, ExtendedSize(|f.payload|), k);
  }

  lemma LengthAt(f: Frame, k: nat)
    requires Encodable(f) && k < ExtendedSize(|f.payload|)
    ensures |Encode(f)| > 2 + k && Encode(f)[2 + k] == BigEndian(|f.payload|, ExtendedSize(|f.payload|))[k]
  {
    var h, size := Header(f), ExtendedSize(|f.payload|);
    HeaderParts(f);
    assert Encode(f)[2 + k] == h[2 + k] == h[2..2 + size][k] == LengthField(|f.payload|)[1..][k];
  }

  /** The payload comes last; each byte is the exclusive or with the byte of the key at its index modulo 4. */
  lemma EncodedPayload(f: Frame, i: nat, j: nat)
    requires Encodable(f) && i < |f.payload| && j < 8
    ensures
      var b := Encode(f);
      var at := |b| - |f.payload| + i;
      && |b| >= |f.payload|
      && (f.key.None? ==> b[at] == f.payload[i])
      && (f.key.Some? ==> Bit(b[at], j) == (Bit(f.payload[i], j) + Bit(f.key.value[i % 4], j)) % 2)
  {
    assert Encode(f)[|Header(f)| + i] == Body(f)[i];
    if f.key.Some? {
      MaskedBit(f.payload, f.key.value, i, j);
    }
  }
}
