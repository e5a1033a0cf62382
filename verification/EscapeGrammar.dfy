/** What may stand between quotes, piece by piece, and what each piece means. */
module EscapeGrammar {
  import opened ByteStrings
  import opened Results
  import opened StringEscape
  import opened StringLexer

  /** A digit by its value; those from ten on come in both cases. */
  datatype Digit = Digit(value: nat, upper: bool) {
    predicate Valid(base: nat) {
      value < base <= 16
    }

    function Sign(): byte
      requires Valid(16)
    {
      if value < 10 then 48 + value else if upper then 55 + value else 87 + value
    }
  }

  datatype Piece =
    | Char(c: byte)
    | Letter(c: byte)
    | Itself(c: byte)
    | LineEnd(cr: bool, lf: bool)
    | Hex(hi: Digit, lo: Digit)
    | Decimal(digits: seq<Digit>)
    | Unicode(digits: seq<Digit>)
    | Blank(spaces: Bytes)

  predicate AllValid(digits: seq<Digit>, base: nat)
    decreases |digits|
  {
    digits == [] || (digits[0].Valid(base) && AllValid(digits[1..], base))
  }

  predicate AllSpaces(spaces: Bytes)
    decreases |spaces|
  {
    spaces == [] || (IsSpace(spaces[0]) && AllSpaces(spaces[1..]))
  }

  function DecimalNumber(digits: seq<Digit>): nat
    decreases |digits|
  {
    var n := |digits| - 1;
    if n < 0 then 0 else 10 * DecimalNumber(digits[..n]) + digits[n].value
  }

  function HexNumber(digits: seq<Digit>): nat
    decreases |digits|
  {
    var n := |digits| - 1;
    if n < 0 then 0 else 16 * HexNumber(digits[..n]) + digits[n].value
  }

  function Signs(digits: seq<Digit>): Bytes
    requires AllValid(digits, 16)
    decreases |digits|
  {
    if digits == [] then [] else [digits[0].Sign()] + Signs(digits[1..])
  }

  /** The letters for the bell, backspace, tabulator, line feed, vertical tabulator, form feed and carriage return. */
  function LetterFor(c: byte): byte
    requires 7 <= c <= 13
  {
    match c
    case 7 => 97
    case 8 => 98
    case 9 => 116
    case 10 => 110
    case 11 => 118
    case 12 => 102
    case _ => 114
  }

  /** After a backslash these are more than themselves. */
  predicate IsSpecial(c: byte) {
    || c == 97 || c == 98 || c == 116 || c == 110 || c == 118 || c == 102 || c == 114
    || c == 117 || c == 120 || c == 122
    || c == 0 || c == 10 || c == 13 || IsDigit(c)
  }

  /** The code of the digits wraps around at 32 bits. */
  function Code(digits: seq<Digit>): nat {
    HexNumber(digits) % 0x1_0000_0000
  }

  predicate Shape(p: Piece) {
    match p
    case Char(c) => c != BACKSLASH
    case Letter(c) => 7 <= c <= 13
    case Itself(c) => !IsSpecial(c)
    case LineEnd(cr, lf) => cr || lf
    case Hex(hi, lo) => hi.Valid(16) && lo.Valid(16)
    case Decimal(digits) => 1 <= |digits| <= 3 && AllValid(digits, 10) && AllValid(digits, 16)
    case Unicode(digits) => 1 <= |digits| <= 16 && AllValid(digits, 16)
    case Blank(spaces) => AllSpaces(spaces)
  }

  /** A number is a byte, or a code point. */
  predicate Legal(p: Piece) {
    && Shape(p)
    && (p.Decimal? ==> DecimalNumber(p.digits) < 256)
    && (p.Unicode? ==> Code(p.digits) < 0x11_0000)
  }

  function Text(p: Piece): Bytes
    requires Shape(p)
  {
    match p
    case Char(c) => [c]
    case Letter(c) => [BACKSLASH, LetterFor(c)]
    case Itself(c) => [BACKSLASH, c]
    case LineEnd(cr, lf) => if !cr then [BACKSLASH, 10] else if lf then [BACKSLASH, 13, 10] else [BACKSLASH, 13]
    case Hex(hi, lo) => [BACKSLASH, 120, hi.Sign(), lo.Sign()]
    case Decimal(digits) => [BACKSLASH] + Signs(digits)
    case Unicode(digits) => [BACKSLASH, 117, OPEN_BRACE] + Signs(digits) + [CLOSE_BRACE]
    case Blank(spaces) => [BACKSLASH, 122] + spaces
  }

  function Meaning(p: Piece): Bytes
    requires Legal(p)
  {
    match p
    case Char(c) => [c]
    case Letter(c) => [c]
    case Itself(c) => [c]
    case LineEnd(_, _) => [10]
    case Hex(hi, lo) => [16 * hi.value + lo.value]
    case Decimal(digits) => [DecimalNumber(digits)]
    case Unicode(digits) => Utf8(Code(digits))
    case Blank(_) => []
  }

  /** What would still belong to the piece. */
  predicate Continues(p: Piece, c: byte) {
    || (p.LineEnd? && !p.lf && c == 10)
    || (p.Decimal? && |p.digits| < 3 && IsDigit(c))
    || (p.Blank? && IsSpace(c))
  }

  ghost predicate PieceAt(data: Bytes, i: nat, p: Piece) {
    && Shape(p) && TextAt(data, i, Text(p))
    && (i + |Text(p)| < |data| ==> !Continues(p, data[i + |Text(p)|]))
  }

  /** Pieces one after the other, each with the size of its text. */
  datatype Pieces = End | Then(p: Piece, size: nat, rest: Pieces)

  ghost predicate PieceFits(data: Bytes, i: nat, p: Piece, size: nat) {
    PieceAt(data, i, p) && size == |Text(p)|
  }

  /** From `i` to `end` the text is the pieces, each as long as it can be. */
  ghost predicate Written(data: Bytes, i: nat, pieces: Pieces, end: nat)
    decreases pieces, 1
  {
    if pieces.End? then i == end else WrittenFrom(data, i, pieces, end)
  }

  ghost predicate WrittenFrom(data: Bytes, i: nat, pieces: Pieces, end: nat)
    requires pieces.Then?
    decreases pieces, 0
  {
    PieceFits(data, i, pieces.p, pieces.size) && Written(data, i + pieces.size, pieces.rest, end)
  }

  predicate AllLegal(pieces: Pieces) {
    pieces.End? || (Legal(pieces.p) && AllLegal(pieces.rest))
  }

  function Meant(pieces: Pieces): Bytes
    requires AllLegal(pieces)
  {
    if pieces.End? then [] else Meaning(pieces.p) + Meant(pieces.rest)
  }

  // ----- code points -----

  predicate Tail(b: byte) {
    0x80 <= b < 0xC0
  }

  function Above(b: byte, base: byte): int {
    b as int - base as int
  }

  /** The bytes are the code in UTF-8: the first one tells how many there are, the shortest form is the only one. */
  predicate Encodes(b: Bytes, code: int) {
    || (|b| == 1 && b[0] < 0x80 && code == b[0])
    || (|b| == 2 && 0xC0 <= b[0] < 0xE0 && Tail(b[1]) && code >= 0x80 && code == Above(b[0], 0xC0) * 0x40 + Above(b[1], 0x80))
    || (|b| == 3 && 0xE0 <= b[0] < 0xF0 && Tail(b[1]) && Tail(b[2]) && code >= 0x800
        && code == Above(b[0], 0xE0) * 0x1000 + Above(b[1], 0x80) * 0x40 + Above(b[2], 0x80))
    || (|b| == 4 && 0xF0 <= b[0] < 0xF8 && Tail(b[1]) && Tail(b[2]) && Tail(b[3]) && code >= 0x1_0000
        && code == Above(b[0], 0xF0) * 0x4_0000 + Above(b[1], 0x80) * 0x1000 + Above(b[2], 0x80) * 0x40 + Above(b[3], 0x80))
  }

  /** Every code point has its encoding, a larger number has none. */
  lemma Utf8Is(code: nat)
    ensures if code < 0x11_0000 then Encodes(Utf8(code), code) else Utf8(code) == []
  {
    assert code / 0x40 / 0x40 == code / 0x1000 && code / 0x1000 / 0x40 == code / 0x4_0000;
  }

  // ----- pieces are read -----

  lemma SignsRead(d: Digit)
    requires d.Valid(16)
    ensures IsHexDigit(d.Sign()) && HexValue(d.Sign()) == d.value
    ensures d.Sign() != CLOSE_BRACE && d.Sign() != OPEN_BRACE && d.Sign() != BACKSLASH && d.Sign() > 32
    ensures d.Valid(10) ==> IsDigit(d.Sign())
  {
  }

  lemma {:induction false} ValidAt(digits: seq<Digit>, base: nat)
    ensures AllValid(digits, base) <==> forall k :: 0 <= k < |digits| ==> digits[k].Valid(base)
    decreases |digits|
  {
    if digits != [] {
      ValidAt(digits[1..], base);
      assert forall k :: 1 <= k < |digits| ==> digits[k] == digits[1..][k - 1];
    }
  }

  lemma {:induction false} SpacesAt(spaces: Bytes)
    ensures AllSpaces(spaces) <==> forall k :: 0 <= k < |spaces| ==> IsSpace(spaces[k])
    decreases |spaces|
  {
    if spaces != [] {
      SpacesAt(spaces[1..]);
      assert forall k :: 1 <= k < |spaces| ==> spaces[k] == spaces[1..][k - 1];
    }
  }

  lemma {:induction false} SignAt(digits: seq<Digit>)
    requires AllValid(digits, 16)
    ensures |Signs(digits)| == |digits|
    ensures forall k :: 0 <= k < |digits| ==> digits[k].Valid(16) && Signs(digits)[k] == digits[k].Sign()
    decreases |digits|
  {
    if digits != [] {
      SignAt(digits[1..]);
      assert forall k :: 1 <= k < |digits| ==> digits[k] == digits[1..][k - 1];
    }
  }

  /** The digits stand from a place on. */
  ghost predicate Stand(data: Bytes, from: nat, digits: seq<Digit>, base: nat) {
    && from + |digits| <= |data|
    && forall k :: 0 <= k < |digits| ==> digits[k].Valid(base) && data[from + k] == digits[k].Sign()
  }

  lemma ReadsHex(data: Bytes, i: nat, p: Piece)
    requires p.Hex? && PieceAt(data, i, p) && Legal(p)
    ensures ReadEscape(data, i) == Some((Meaning(p), i + |Text(p)|))
  {
    ByteOf(data, i, Text(p), 1);
    ByteOf(data, i, Text(p), 2);
    ByteOf(data, i, Text(p), 3);
    SignsRead(p.hi);
    SignsRead(p.lo);
  }

  lemma {:induction false} ReadsSpaces(data: Bytes, i: nat, end: nat)
    requires i <= end <= |data|
    requires forall k :: i <= k < end ==> IsSpace(data[k])
    requires end < |data| ==> !IsSpace(data[end])
    ensures AfterSpace(data, i) == end
    decreases end - i
  {
    if i < end {
      ReadsSpaces(data, i + 1, end);
    }
  }

  lemma ReadsBlank(data: Bytes, i: nat, p: Piece)
    requires p.Blank? && PieceAt(data, i, p) && Legal(p)
    ensures ReadEscape(data, i) == Some((Meaning(p), i + |Text(p)|))
  {
    ByteOf(data, i, Text(p), 1);
    var end := i + |Text(p)|;
    SpacesAt(p.spaces);
    forall k | i + 2 <= k < end
      ensures IsSpace(data[k])
    {
      ByteOf(data, i, Text(p), k - i);
    }
    ReadsSpaces(data, i + 2, end);
  }

  lemma NumberOf(digits: seq<Digit>, k: nat)
    requires k < |digits|
    ensures DecimalNumber(digits[..k + 1]) == 10 * DecimalNumber(digits[..k]) + digits[k].value
    ensures HexNumber(digits[..k + 1]) == 16 * HexNumber(digits[..k]) + digits[k].value
  {
    assert digits[..k + 1][..k] == digits[..k];
  }

  /** From the digit at `k` on. */
  lemma {:induction false} ReadsDigits(data: Bytes, from: nat, digits: seq<Digit>, k: nat, n: nat, end: nat)
    requires Stand(data, from, digits, 10) && k <= |digits| <= k + n && end == from + |digits|
    requires |digits| < k + n && end < |data| ==> !IsDigit(data[end])
    ensures DecimalRun(data, from + k, n, DecimalNumber(digits[..k])) == (DecimalNumber(digits), end)
    decreases |digits| - k
  {
    if k < |digits| {
      SignsRead(digits[k]);
      NumberOf(digits, k);
      ReadsDigits(data, from, digits, k + 1, n - 1, end);
    } else {
      assert digits[..k] == digits;
    }
  }

  /** The signs stand behind what precedes them in the text. */
  lemma SignsAt(data: Bytes, i: nat, text: Bytes, before: Bytes, digits: seq<Digit>, behind: Bytes)
    requires AllValid(digits, 16) && text == before + Signs(digits) + behind && TextAt(data, i, text)
    ensures Stand(data, i + |before|, digits, 16) && |text| == |before| + |digits| + |behind|
  {
    SignAt(digits);
    forall j | 0 <= j < |digits|
      ensures data[i + |before| + j] == digits[j].Sign()
    {
      ByteOf(data, i, text, |before| + j);
    }
  }

  lemma ReadsDecimal(data: Bytes, i: nat, p: Piece)
    requires p.Decimal? && PieceAt(data, i, p) && Legal(p)
    ensures ReadEscape(data, i) == Some((Meaning(p), i + |Text(p)|))
  {
    SignsAt(data, i, Text(p), [BACKSLASH], p.digits, []);
    ValidAt(p.digits, 10);
    ReadsDecimalDigits(data, i + 1, p.digits, 2, i + |Text(p)|);
  }

  /** The first digit has been read. */
  lemma ReadsDecimalDigits(data: Bytes, from: nat, digits: seq<Digit>, n: nat, end: nat)
    requires Stand(data, from, digits, 10) && 1 <= |digits| <= 1 + n && end == from + |digits|
    requires |digits| < 1 + n && end < |data| ==> !IsDigit(data[end])
    ensures IsDigit(data[from]) && DecimalRun(data, from + 1, n, data[from] - 48) == (DecimalNumber(digits), end)
  {
    assert data[from + 0] == digits[0].Sign();
    NumberOf(digits, 0);
    assert DecimalNumber(digits[..0]) == 0;
    ReadsDigits(data, from, digits, 1, n, end);
  }

  lemma WrapsOn(a: nat, v: nat)
    ensures (16 * (a % 0x1_0000_0000) + v) % 0x1_0000_0000 == (16 * a + v) % 0x1_0000_0000
  {
    var q := a / 0x1_0000_0000;
    assert 16 * a + v == 16 * (a % 0x1_0000_0000) + v + 16 * q * 0x1_0000_0000;
  }

  lemma {:induction false} ReadsHexDigits(data: Bytes, from: nat, digits: seq<Digit>, k: nat, at: nat, limit: nat, end: nat)
    requires Stand(data, from, digits, 16) && k <= |digits| && at == from + k && end == from + |digits| <= limit
    requires end < |data| && data[end] == CLOSE_BRACE
    ensures HexRun(data, at, limit, HexNumber(digits[..k]) % 0x1_0000_0000) == Some((Code(digits), end))
    decreases |digits| - k
  {
    if k < |digits| {
      SignsRead(digits[k]);
      NumberOf(digits, k);
      WrapsOn(HexNumber(digits[..k]), digits[k].value);
      ReadsHexDigits(data, from, digits, k + 1, at + 1, limit, end);
    } else {
      assert digits[..k] == digits;
    }
  }

  /** A sequence with the digits between braces. */
  ghost predicate UnicodeAt(data: Bytes, i: nat, digits: seq<Digit>, end: nat) {
    && Stand(data, i + 3, digits, 16) && end == i + 3 + |digits| < |data|
    && data[i] == BACKSLASH && data[i + 1] == 117 && data[i + 2] == OPEN_BRACE && data[end] == CLOSE_BRACE
  }

  lemma UnicodeText(data: Bytes, i: nat, p: Piece, end: nat)
    requires p.Unicode? && PieceAt(data, i, p) && end == i + 3 + |p.digits|
    ensures i + |Text(p)| == end + 1 && UnicodeAt(data, i, p.digits, end)
  {
    var text := Text(p);
    SignsAt(data, i, text, [BACKSLASH, 117, OPEN_BRACE], p.digits, [CLOSE_BRACE]);
    ByteOf(data, i, text, 0);
    ByteOf(data, i, text, 1);
    ByteOf(data, i, text, 2);
    ByteOf(data, i, text, |p.digits| + 3);
  }

  lemma ReadsUnicode(data: Bytes, i: nat, digits: seq<Digit>, end: nat)
    requires UnicodeAt(data, i, digits, end) && 1 <= |digits| <= 16 && Code(digits) < 0x11_0000
    ensures ReadEscape(data, i) == Some((Utf8(Code(digits)), end + 1))
  {
    ReadsCode(data, i + 3, digits, i + 19, end);
    Utf8Is(Code(digits));
  }

  lemma ReadsCode(data: Bytes, from: nat, digits: seq<Digit>, limit: nat, end: nat)
    requires Stand(data, from, digits, 16) && digits != [] && end == from + |digits| <= limit
    requires end < |data| && data[end] == CLOSE_BRACE
    ensures data[from] != CLOSE_BRACE && HexRun(data, from, limit, 0) == Some((Code(digits), end))
  {
    assert data[from + 0] == digits[0].Sign();
    SignsRead(digits[0]);
    assert digits[..0] == [];
    ReadsHexDigits(data, from, digits, 0, from, limit, end);
  }

  lemma ReadsShort(data: Bytes, i: nat, p: Piece)
    requires (p.Letter? || p.Itself? || p.LineEnd?) && PieceAt(data, i, p) && Legal(p)
    ensures ReadEscape(data, i) == Some((Meaning(p), i + |Text(p)|))
  {
    ByteOf(data, i, Text(p), 1);
    if p.LineEnd? && p.cr && p.lf {
      ByteOf(data, i, Text(p), 2);
    }
  }

  lemma ReadsCodePoint(data: Bytes, i: nat, p: Piece, digits: seq<Digit>, end: nat)
    requires p == Unicode(digits) && PieceAt(data, i, p) && Code(digits) < 0x11_0000 && end == i + 3 + |digits|
    ensures ReadEscape(data, i) == Some((Utf8(Code(digits)), end + 1)) && i + |Text(p)| == end + 1
  {
    UnicodeText(data, i, p, end);
    ReadsUnicode(data, i, digits, end);
  }

  lemma ReadsSequence(data: Bytes, i: nat, p: Piece, meaning: Bytes, next: nat)
    requires PieceAt(data, i, p) && Legal(p) && !p.Char? && meaning == Meaning(p) && next == i + |Text(p)|
    ensures ReadEscape(data, i) == Some((meaning, next))
  {
    match p
    case Char(_) =>
    case Letter(_) => ReadsShort(data, i, p);
    case Itself(_) => ReadsShort(data, i, p);
    case LineEnd(_, _) => ReadsShort(data, i, p);
    case Hex(_, _) => ReadsHex(data, i, p);
    case Decimal(_) => ReadsDecimal(data, i, p);
    case Unicode(digits) => ReadsCodePoint(data, i, p, digits, i + 3 + |digits|);
    case Blank(_) => ReadsBlank(data, i, p);
  }

  lemma ReadsPiece(data: Bytes, i: nat, p: Piece)
    requires PieceAt(data, i, p) && Legal(p)
    ensures Unescaped(data, i) == Prepend(Meaning(p), Unescaped(data, i + |Text(p)|))
  {
    ByteOf(data, i, Text(p), 0);
    if !p.Char? {
      ReadsSequence(data, i, p, Meaning(p), i + |Text(p)|);
    }
  }

  /** A text of pieces means what they mean one after the other. */
  lemma {:induction false} ReadsPieces(data: Bytes, i: nat, pieces: Pieces)
    requires i <= |data| && Written(data, i, pieces, |data|) && AllLegal(pieces)
    ensures Unescaped(data, i) == Some(Meant(pieces))
    decreases pieces
  {
    if pieces.Then? {
      ReadsPiece(data, i, pieces.p);
      ReadsPieces(data, i + pieces.size, pieces.rest);
    }
  }

  const TOO_BIG: seq<Digit> := [
    Digit(1, false), Digit(0, false), Digit(0, false), Digit(0, false), Digit(0, false), Digit(0, false), Digit(0, false),
    Digit(4, false), Digit(1, false)]

  lemma HexStep(digits: seq<Digit>, k: nat, n: nat)
    requires k < |digits| && HexNumber(digits[..k]) == n
    ensures HexNumber(digits[..k + 1]) == 16 * n + digits[k].value
  {
    NumberOf(digits, k);
  }

  lemma TooBigNumber()
    ensures AllValid(TOO_BIG, 16) && HexNumber(TOO_BIG) == 0x1_0000_0041
  {
    ValidAt(TOO_BIG, 16);
    assert TOO_BIG[..0] == [] && TOO_BIG[..9] == TOO_BIG;
    HexStep(TOO_BIG, 0, 0);
    HexStep(TOO_BIG, 1, 1);
    HexStep(TOO_BIG, 2, 0x10);
    HexStep(TOO_BIG, 3, 0x100);
    HexStep(TOO_BIG, 4, 0x1000);
    HexStep(TOO_BIG, 5, 0x1_0000);
    HexStep(TOO_BIG, 6, 0x10_0000);
    HexStep(TOO_BIG, 7, 0x100_0000);
    HexStep(TOO_BIG, 8, 0x1000_0004);
  }

  /** A number beyond 32 bits is no code point, but it wraps around: the sequence is read as an `A`. */
  lemma CodeWraps()
    ensures Shape(Unicode(TOO_BIG)) && HexNumber(TOO_BIG) == 0x1_0000_0041
    ensures Unescaped(Text(Unicode(TOO_BIG)), 0) == Some([65])
  {
    TooBigNumber();
    var p := Unicode(TOO_BIG);
    var text := Text(p);
    assert text[0..|text|] == text;
    ReadsPiece(text, 0, p);
    assert [65] + [] == [65];
  }

  lemma Utf8Empty(n: nat)
    ensures |Utf8(n)| > 0 <==> n < 0x11_0000
  {
  }

  /** What is accepted is read as its number if and only if that is a code point. */
  lemma CodeIsNumber(p: Piece, n: nat)
    requires p.Unicode? && Legal(p) && n == HexNumber(p.digits)
    ensures Meaning(p) == Utf8(n) <==> n < 0x11_0000
  {
    Utf8Empty(n);
    Utf8Empty(Code(p.digits));
    assert n < 0x1_0000_0000 ==> Code(p.digits) == n;
  }

  // ----- what is written -----

  predicate IsOrdinary(c: byte) {
    c >= 32 && c != BACKSLASH && c != QUOTE && c != DOUBLE_QUOTE && c != BACKTICK && c != OPEN_BRACE
  }

  /** What is printable and means nothing else is left as it is. */
  lemma {:induction false} OrdinaryStays(s: Bytes, mode: bool)
    requires forall k :: 0 <= k < |s| ==> IsOrdinary(s[k])
    ensures Escaped(s, mode) == s
    decreases |s|
  {
    if s != [] {
      assert s == [s[0]] + s[1..];
      OrdinaryStays(s[1..], mode);
    }
  }

  function DigitsOf(c: byte): seq<Digit> {
    [Digit(c / 100, false), Digit(c / 10 % 10, false), Digit(c % 10, false)]
  }

  /** The piece that a character is escaped as: its letter, itself, or always three digits. */
  function PieceFor(c: byte, mode: bool): Piece {
    if IsOrdinary(c) then Char(c)
    else if c == BACKSLASH || c == QUOTE || c == DOUBLE_QUOTE || (mode && (c == BACKTICK || c == OPEN_BRACE)) then Itself(c)
    else if 7 <= c <= 13 then Letter(c)
    else Decimal(DigitsOf(c))
  }

  lemma ThreeDigitNumber(a: Digit, b: Digit, c: Digit)
    ensures DecimalNumber([a, b, c]) == 100 * a.value + 10 * b.value + c.value
  {
    assert [a, b, c][..2] == [a, b] && [a, b][..1] == [a] && [a][..0] == [];
    assert DecimalNumber([a]) == 10 * DecimalNumber([]) + a.value;
    assert DecimalNumber([a, b]) == 10 * DecimalNumber([a]) + b.value;
  }

  lemma DigitsNumber(c: byte)
    ensures DecimalNumber(DigitsOf(c)) == c
  {
    ThreeDigitNumber(Digit(c / 100, false), Digit(c / 10 % 10, false), Digit(c % 10, false));
  }

  lemma DigitsSigns(c: byte)
    ensures AllValid(DigitsOf(c), 10) && AllValid(DigitsOf(c), 16) && Signs(DigitsOf(c)) == ThreeDigits(c)
  {
    ValidAt(DigitsOf(c), 10);
    ValidAt(DigitsOf(c), 16);
    SignAt(DigitsOf(c));
    assert Signs(DigitsOf(c)) == ThreeDigits(c);
  }

  lemma EscapedPiece(c: byte, mode: bool)
    ensures Legal(PieceFor(c, mode)) && Text(PieceFor(c, mode)) == EscapedChar(c, mode) && Meaning(PieceFor(c, mode)) == [c]
  {
    if PieceFor(c, mode).Decimal? {
      DigitsNumber(c);
      DigitsSigns(c);
    }
  }

  // ----- what can be read is pieces -----

  function DigitOf(c: byte): (d: Digit)
    requires IsHexDigit(c)
    ensures d.Valid(16) && d.Sign() == c && (IsDigit(c) ==> d.Valid(10))
  {
    Digit(HexValue(c), c < 97)
  }

  function DigitsAt(data: Bytes, from: nat, end: nat): (r: seq<Digit>)
    requires from <= end <= |data| && forall k :: from <= k < end ==> IsHexDigit(data[k])
    ensures |r| == end - from && forall k :: 0 <= k < |r| ==> r[k] == DigitOf(data[from + k])
  {
    seq(end - from, k requires 0 <= k < end - from => DigitOf(data[from + k]))
  }

  /** A run of digits is as long as it can be. */
  lemma {:induction false} DecimalRunEnds(data: Bytes, i: nat, n: nat, code: nat)
    requires i <= |data|
    ensures
      var end := DecimalRun(data, i, n, code).1;
      && end - i <= n && (forall k :: i <= k < end ==> IsDigit(data[k]))
      && (end - i < n && end < |data| ==> !IsDigit(data[end]))
    decreases n
  {
    if n > 0 && i < |data| && IsDigit(data[i]) {
      DecimalRunEnds(data, i + 1, n - 1, 10 * code + (data[i] - 48));
    }
  }

  lemma {:induction false} HexRunEnds(data: Bytes, i: nat, limit: nat, code: nat)
    requires i <= |data| && i <= limit && HexRun(data, i, limit, code).Some?
    ensures
      var end := HexRun(data, i, limit, code).value.1;
      end <= limit && forall k :: i <= k < end ==> IsHexDigit(data[k])
    decreases limit - i
  {
    if i < limit && data[i] != CLOSE_BRACE {
      HexRunEnds(data, i + 1, limit, (16 * code + HexValue(data[i])) % 0x1_0000_0000);
    }
  }

  lemma {:induction false} AfterSpaceEnds(data: Bytes, i: nat)
    requires i <= |data|
    ensures
      var end := AfterSpace(data, i);
      (forall k :: i <= k < end ==> IsSpace(data[k])) && (end < |data| ==> !IsSpace(data[end]))
    decreases |data| - i
  {
    if i < |data| && IsSpace(data[i]) {
      AfterSpaceEnds(data, i + 1);
    }
  }

  ghost predicate HexAt(data: Bytes, from: nat, end: nat) {
    from <= end <= |data| && forall k :: from <= k < end ==> IsHexDigit(data[k])
  }

  lemma IsText(data: Bytes, i: nat, before: Bytes, from: nat, end: nat, behind: Bytes)
    requires from == i + |before| <= |data| && data[i..from] == before
    requires HexAt(data, from, end) && end + |behind| <= |data| && data[end..end + |behind|] == behind
    ensures AllValid(DigitsAt(data, from, end), 16) && Stand(data, from, DigitsAt(data, from, end), 16)
    ensures TextAt(data, i, before + Signs(DigitsAt(data, from, end)) + behind)
  {
    ValidAt(DigitsAt(data, from, end), 16);
    SignAt(DigitsAt(data, from, end));
    assert data[from..end] == Signs(DigitsAt(data, from, end));
    assert data[i..end + |behind|] == data[i..from] + data[from..end] + data[end..end + |behind|];
  }

  lemma DecimalEnd(data: Bytes, i: nat) returns (end: nat)
    requires i + 1 < |data| && data[i] == BACKSLASH && IsDigit(data[i + 1]) && ReadEscape(data, i).Some?
    ensures i + 2 <= end <= i + 4 && HexAt(data, i + 1, end) && forall k :: i < k < end ==> IsDigit(data[k])
    ensures end < |data| && end < i + 4 ==> !IsDigit(data[end])
    ensures DecimalRun(data, i + 2, 2, data[i + 1] - 48).0 < 256
    ensures DecimalRun(data, i + 2, 2, data[i + 1] - 48).1 == end
  {
    var code := data[i + 1] - 48;
    DecimalRunEnds(data, i + 2, 2, code);
    end := DecimalRun(data, i + 2, 2, code).1;
  }

  lemma DecimalText(data: Bytes, i: nat, digits: seq<Digit>)
    requires AllValid(digits, 16) && TextAt(data, i, [BACKSLASH] + Signs(digits) + [])
    ensures TextAt(data, i, [BACKSLASH] + Signs(digits)) && |Signs(digits)| == |digits|
  {
    SignAt(digits);
    assert [BACKSLASH] + Signs(digits) + [] == [BACKSLASH] + Signs(digits);
  }

  lemma DecimalFits(data: Bytes, i: nat, digits: seq<Digit>, end: nat)
    requires AllValid(digits, 10) && AllValid(digits, 16) && 1 <= |digits| <= 3 && end == i + 1 + |digits|
    requires |digits| < 3 && end < |data| ==> !IsDigit(data[end])
    requires TextAt(data, i, [BACKSLASH] + Signs(digits)) && |Signs(digits)| == |digits|
    ensures PieceAt(data, i, Decimal(digits))
  {
  }

  lemma FindsDecimal(data: Bytes, i: nat) returns (p: Piece)
    requires i + 1 < |data| && data[i] == BACKSLASH && IsDigit(data[i + 1]) && ReadEscape(data, i).Some?
    ensures PieceAt(data, i, p) && Legal(p)
  {
    var end := DecimalEnd(data, i);
    var digits := DigitsAt(data, i + 1, end);
    IsText(data, i, [BACKSLASH], i + 1, end, []);
    ValidAt(digits, 10);
    ReadsDecimalDigits(data, i + 1, digits, 2, end);
    DecimalText(data, i, digits);
    DecimalFits(data, i, digits, end);
    p := Decimal(digits);
  }

  lemma UnicodeEnd(data: Bytes, i: nat) returns (end: nat)
    requires i + 1 < |data| && data[i] == BACKSLASH && data[i + 1] == 117 && ReadEscape(data, i).Some?
    ensures i + 3 < end <= i + 19 && HexAt(data, i + 3, end) && end < |data|
    ensures data[i + 2] == OPEN_BRACE && data[end] == CLOSE_BRACE
    ensures HexRun(data, i + 3, i + 19, 0).Some? && HexRun(data, i + 3, i + 19, 0).value.1 == end
    ensures HexRun(data, i + 3, i + 19, 0).value.0 < 0x11_0000
  {
    HexRunEnds(data, i + 3, i + 19, 0);
    end := HexRun(data, i + 3, i + 19, 0).value.1;
  }

  lemma FindsUnicode(data: Bytes, i: nat) returns (p: Piece)
    requires i + 1 < |data| && data[i] == BACKSLASH && data[i + 1] == 117 && ReadEscape(data, i).Some?
    ensures PieceAt(data, i, p) && Legal(p)
  {
    var end := UnicodeEnd(data, i);
    var digits := DigitsAt(data, i + 3, end);
    IsText(data, i, [BACKSLASH, 117, OPEN_BRACE], i + 3, end, [CLOSE_BRACE]);
    ReadsCode(data, i + 3, digits, i + 19, end);
    p := Unicode(digits);
  }

  lemma FindsBlank(data: Bytes, i: nat) returns (p: Piece)
    requires i + 1 < |data| && data[i] == BACKSLASH && data[i + 1] == 122
    ensures PieceAt(data, i, p) && Legal(p)
  {
    AfterSpaceEnds(data, i + 2);
    var end := AfterSpace(data, i + 2);
    p := Blank(data[i + 2..end]);
    SpacesAt(p.spaces);
    assert data[i..end] == [BACKSLASH, 122] + data[i + 2..end];
  }

  lemma FindsShort(data: Bytes, i: nat) returns (p: Piece)
    requires i + 1 < |data| && data[i] == BACKSLASH && ReadEscape(data, i).Some?
    requires data[i + 1] !in {117, 120, 122} && !IsDigit(data[i + 1])
    ensures PieceAt(data, i, p) && Legal(p)
  {
    var e := data[i + 1];
    if e == 13 && i + 2 < |data| && data[i + 2] == 10 {
      p := LineEnd(true, true);
      assert data[i..i + 3] == [BACKSLASH, 13, 10];
    } else if e == 10 || e == 13 {
      p := LineEnd(e == 13, e == 10);
      assert data[i..i + 2] == [BACKSLASH, e];
    } else {
      p := if UnescapeLetter(e) != e then Letter(UnescapeLetter(e)) else Itself(e);
      assert data[i..i + 2] == [BACKSLASH, e];
    }
  }

  lemma FindsHex(data: Bytes, i: nat) returns (p: Piece)
    requires i + 1 < |data| && data[i] == BACKSLASH && data[i + 1] == 120 && ReadEscape(data, i).Some?
    ensures PieceAt(data, i, p) && Legal(p)
  {
    p := Hex(DigitOf(data[i + 2]), DigitOf(data[i + 3]));
    assert data[i..i + 4] == Text(p);
  }

  lemma FindsPiece(data: Bytes, i: nat) returns (p: Piece)
    requires i < |data| && (data[i] == BACKSLASH ==> ReadEscape(data, i).Some?)
    ensures PieceAt(data, i, p) && Legal(p)
  {
    if data[i] != BACKSLASH {
      p := Char(data[i]);
      assert data[i..i + 1] == Text(p);
    } else if IsDigit(data[i + 1]) {
      p := FindsDecimal(data, i);
    } else if data[i + 1] == 117 {
      p := FindsUnicode(data, i);
    } else if data[i + 1] == 120 {
      p := FindsHex(data, i);
    } else if data[i + 1] == 122 {
      p := FindsBlank(data, i);
    } else {
      p := FindsShort(data, i);
    }
  }

  lemma {:induction false} FindsPieces(data: Bytes, i: nat) returns (pieces: Pieces)
    requires i <= |data| && Unescaped(data, i).Some?
    ensures Written(data, i, pieces, |data|) && AllLegal(pieces)
    decreases |data| - i
  {
    if i == |data| {
      return End;
    }
    var p, size := FindsFirst(data, i);
    var next := i + size;
    var rest := FindsPieces(data, next);
    pieces := Then(p, size, rest);
    WrittenThen(data, i, pieces, next, |data|);
    LegalThen(p, size, rest);
  }

  lemma WrittenThen(data: Bytes, i: nat, pieces: Pieces, next: nat, end: nat)
    requires pieces.Then? && PieceFits(data, i, pieces.p, pieces.size) && next == i + pieces.size
    requires Written(data, next, pieces.rest, end)
    ensures Written(data, i, pieces, end)
  {
  }

  lemma LegalThen(p: Piece, size: nat, rest: Pieces)
    requires Legal(p) && AllLegal(rest)
    ensures AllLegal(Then(p, size, rest))
  {
  }

  lemma FindsFirst(data: Bytes, i: nat) returns (p: Piece, size: nat)
    requires i < |data| && Unescaped(data, i).Some?
    ensures PieceFits(data, i, p, size) && Legal(p) && 0 < size <= |data| - i && Unescaped(data, i + size).Some?
  {
    p := FindsPiece(data, i);
    size := |Text(p)|;
    Goes(data, i, p, size);
  }

  lemma Goes(data: Bytes, i: nat, p: Piece, size: nat)
    requires PieceFits(data, i, p, size) && Legal(p) && Unescaped(data, i).Some?
    ensures size > 0 && Unescaped(data, i + size).Some?
  {
    ReadsPiece(data, i, p);
  }

  /** The text is accepted exactly when it is made of such pieces, and then it says what they mean. */
  lemma MeansItsPieces(data: Bytes, s: Bytes)
    ensures
      Unescaped(data, 0) == Some(s)
      <==> exists pieces :: Written(data, 0, pieces, |data|) && AllLegal(pieces) && Meant(pieces) == s
  {
    if Unescaped(data, 0) == Some(s) {
      var pieces := FindsPieces(data, 0);
      ReadsPieces(data, 0, pieces);
    }
    forall pieces | Written(data, 0, pieces, |data|) && AllLegal(pieces)
      ensures Unescaped(data, 0) == Some(Meant(pieces))
    {
      ReadsPieces(data, 0, pieces);
    }
  }

  // ----- pieces between delimiters are one token -----

  /** No piece is a delimiter as it stands, the end of a line or a zero. */
  predicate NoneBare(pieces: Pieces, stops: set<byte>) {
    pieces.Then? ==> !(pieces.p.Char? && pieces.p.c in stops) && NoneBare(pieces.rest, stops)
  }

  predicate Harmless(c: byte) {
    47 < c && c != BACKSLASH && c != BACKTICK && c != OPEN_BRACE
  }

  predicate SameQuoted(buffer: Bytes, i: nat, j: nat, delimiter: byte)
    requires i <= |buffer| && j <= |buffer| && delimiter != 0
  {
    QuotedEnd(buffer, i, delimiter) == QuotedEnd(buffer, j, delimiter)
  }

  lemma {:induction false} QuotedPassesHarmless(buffer: Bytes, i: nat, end: nat, delimiter: byte)
    requires HarmlessFrom(buffer, i, end) && (delimiter == QUOTE || delimiter == DOUBLE_QUOTE)
    ensures SameQuoted(buffer, i, end, delimiter)
    decreases end - i
  {
    if i < end {
      QuotedPassesHarmless(buffer, i + 1, end, delimiter);
    }
  }

  lemma {:induction false} SectionPassesHarmless(buffer: Bytes, i: nat, end: nat)
    requires HarmlessFrom(buffer, i, end)
    ensures SameEnd(buffer, i, end)
    decreases end - i
  {
    if i < end {
      SectionPassesHarmless(buffer, i + 1, end);
    }
  }

  /** Where the digits of a piece begin: what follows is harmless. */
  function Head(p: Piece): nat
    requires Shape(p)
  {
    match p
    case Char(_) => 1
    case LineEnd(cr, lf) => if cr && lf then 3 else 2
    case Unicode(_) => 3
    case Blank(spaces) => 2 + |spaces|
    case _ => 2
  }

  ghost predicate HarmlessFrom(buffer: Bytes, i: nat, end: nat) {
    i <= end <= |buffer| && forall k :: i <= k < end ==> Harmless(buffer[k])
  }

  lemma HarmlessSigns(buffer: Bytes, from: nat, digits: seq<Digit>, k: nat)
    requires Stand(buffer, from, digits, 16) && k <= |digits|
    ensures HarmlessFrom(buffer, from + k, from + |digits|)
  {
    forall j | from + k <= j < from + |digits|
      ensures Harmless(buffer[j])
    {
      assert buffer[from + (j - from)] == digits[j - from].Sign();
      SignsRead(digits[j - from]);
    }
  }

  lemma HarmlessHex(buffer: Bytes, i: nat, p: Piece)
    requires PieceAt(buffer, i, p) && p.Hex?
    ensures HarmlessFrom(buffer, i + 2, i + |Text(p)|)
  {
    ByteOf(buffer, i, Text(p), 2);
    ByteOf(buffer, i, Text(p), 3);
    SignsRead(p.hi);
    SignsRead(p.lo);
  }

  lemma HarmlessDecimal(buffer: Bytes, i: nat, p: Piece)
    requires PieceAt(buffer, i, p) && p.Decimal?
    ensures HarmlessFrom(buffer, i + 2, i + |Text(p)|)
  {
    SignsAt(buffer, i, Text(p), [BACKSLASH], p.digits, []);
    HarmlessSigns(buffer, i + 1, p.digits, 1);
  }

  lemma HarmlessUnicode(buffer: Bytes, i: nat, digits: seq<Digit>, end: nat)
    requires UnicodeAt(buffer, i, digits, end)
    ensures HarmlessFrom(buffer, i + 3, end + 1)
  {
    HarmlessSigns(buffer, i + 3, digits, 0);
  }

  lemma AllHead(p: Piece)
    requires Shape(p) && !p.Hex? && !p.Decimal? && !p.Unicode?
    ensures |Text(p)| == Head(p)
  {
  }

  lemma HarmlessTail(buffer: Bytes, i: nat, p: Piece, end: nat)
    requires PieceAt(buffer, i, p) && end == i + |Text(p)|
    ensures HarmlessFrom(buffer, i + Head(p), end)
  {
    if p.Hex? {
      HarmlessHex(buffer, i, p);
    } else if p.Decimal? {
      HarmlessDecimal(buffer, i, p);
    } else if p.Unicode? {
      var last := i + 3 + |p.digits|;
      UnicodeText(buffer, i, p, last);
      HarmlessUnicode(buffer, i, p.digits, last);
    } else {
      AllHead(p);
    }
  }

  lemma SkipsBlank(buffer: Bytes, i: nat, p: Piece)
    requires PieceAt(buffer, i, p) && p.Blank?
    ensures buffer[i] == BACKSLASH && SkipBackslash(buffer, i) == i + Head(p) && Peek(buffer, i + 1) != 117
  {
    ByteOf(buffer, i, Text(p), 0);
    ByteOf(buffer, i, Text(p), 1);
    SpacesAt(p.spaces);
    forall k | i + 2 <= k < i + |Text(p)|
      ensures IsSpace(buffer[k])
    {
      ByteOf(buffer, i, Text(p), k - i);
    }
    ReadsSpaces(buffer, i + 2, i + |Text(p)|);
  }

  lemma SkipsHead(buffer: Bytes, i: nat, p: Piece)
    requires PieceAt(buffer, i, p) && !p.Char? && !p.Unicode? && !p.Blank?
    ensures buffer[i] == BACKSLASH && SkipBackslash(buffer, i) == i + Head(p) && Peek(buffer, i + 1) != 117
  {
    ByteOf(buffer, i, Text(p), 0);
    ByteOf(buffer, i, Text(p), 1);
    if p.LineEnd? && p.cr && p.lf {
      ByteOf(buffer, i, Text(p), 2);
    } else if p.Decimal? {
      SignsRead(p.digits[0]);
    }
  }

  /** What the two lexers have to know of the head: a character, a brace of digits, or what a backslash skips. */
  predicate HeadAt(buffer: Bytes, i: nat, end: nat, kind: Piece) {
    && i < end <= |buffer|
    && if kind.Char? then end == i + 1 && buffer[i] == kind.c && kind.c != BACKSLASH
       else
         && buffer[i] == BACKSLASH
         && if kind.Unicode? then end == i + 3 && Peek(buffer, i + 1) == 117 && Peek(buffer, i + 2) == OPEN_BRACE
            else SkipBackslash(buffer, i) == end && Peek(buffer, i + 1) != 117
  }

  lemma HeadFound(buffer: Bytes, i: nat, p: Piece)
    requires PieceAt(buffer, i, p)
    ensures HeadAt(buffer, i, i + Head(p), p)
  {
    match p
    case Char(_) => ByteOf(buffer, i, Text(p), 0);
    case Unicode(digits) => UnicodeText(buffer, i, p, i + 3 + |digits|);
    case Blank(_) => SkipsBlank(buffer, i, p);
    case _ => SkipsHead(buffer, i, p);
  }

  lemma QuotedPassesHead(buffer: Bytes, i: nat, end: nat, kind: Piece, delimiter: byte)
    requires HeadAt(buffer, i, end, kind) && (delimiter == QUOTE || delimiter == DOUBLE_QUOTE)
    requires kind.Char? ==> kind.c !in {delimiter, 0, 10, 13}
    ensures SameQuoted(buffer, i, end, delimiter)
  {
    if kind.Unicode? {
      assert QuotedEnd(buffer, i + 2, delimiter) == QuotedEnd(buffer, i + 3, delimiter);
    }
  }

  lemma SectionPassesHead(buffer: Bytes, i: nat, end: nat, kind: Piece)
    requires HeadAt(buffer, i, end, kind)
    requires kind.Char? ==> kind.c !in {BACKTICK, OPEN_BRACE, 0, 10, 13}
    ensures SameEnd(buffer, i, end)
  {
  }

  lemma QuotedPassesPiece(buffer: Bytes, i: nat, p: Piece, end: nat, delimiter: byte)
    requires PieceAt(buffer, i, p) && end == i + |Text(p)| && (delimiter == QUOTE || delimiter == DOUBLE_QUOTE)
    requires p.Char? ==> p.c !in {delimiter, 0, 10, 13}
    ensures SameQuoted(buffer, i, end, delimiter)
  {
    var head := i + Head(p);
    HeadFound(buffer, i, p);
    HarmlessTail(buffer, i, p, end);
    QuotedPassesHead(buffer, i, head, p, delimiter);
    QuotedPassesHarmless(buffer, head, end, delimiter);
  }

  lemma SectionPassesPiece(buffer: Bytes, i: nat, p: Piece, end: nat)
    requires PieceAt(buffer, i, p) && end == i + |Text(p)|
    requires p.Char? ==> p.c !in {BACKTICK, OPEN_BRACE, 0, 10, 13}
    ensures SameEnd(buffer, i, end)
  {
    var head := i + Head(p);
    HeadFound(buffer, i, p);
    HarmlessTail(buffer, i, p, end);
    SectionPassesHead(buffer, i, head, p);
    SectionPassesHarmless(buffer, head, end);
  }

  lemma {:induction false} QuotedPassesPieces(buffer: Bytes, i: nat, pieces: Pieces, end: nat, delimiter: byte)
    requires i <= end <= |buffer| && Written(buffer, i, pieces, end) && (delimiter == QUOTE || delimiter == DOUBLE_QUOTE)
    requires NoneBare(pieces, {delimiter, 0, 10, 13})
    ensures SameQuoted(buffer, i, end, delimiter)
    decreases pieces
  {
    if pieces.Then? {
      var next := i + pieces.size;
      WrittenUpTo(buffer, next, pieces.rest, end);
      QuotedPassesPiece(buffer, i, pieces.p, next, delimiter);
      QuotedPassesPieces(buffer, next, pieces.rest, end, delimiter);
    }
  }

  lemma {:induction false} SectionPassesPieces(buffer: Bytes, i: nat, pieces: Pieces, end: nat)
    requires i <= end <= |buffer| && Written(buffer, i, pieces, end)
    requires NoneBare(pieces, {BACKTICK, OPEN_BRACE, 0, 10, 13})
    ensures SameEnd(buffer, i, end)
    decreases pieces
  {
    if pieces.Then? {
      var next := i + pieces.size;
      WrittenUpTo(buffer, next, pieces.rest, end);
      SectionPassesPiece(buffer, i, pieces.p, next);
      SectionPassesPieces(buffer, next, pieces.rest, end);
    }
  }

  lemma {:induction false} WrittenUpTo(data: Bytes, i: nat, pieces: Pieces, end: nat)
    requires Written(data, i, pieces, end)
    ensures i <= end
    decreases pieces
  {
    if pieces.Then? {
      WrittenUpTo(data, i + pieces.size, pieces.rest, end);
    }
  }

  lemma TextInPart(buffer: Bytes, from: nat, part: Bytes, i: nat, text: Bytes)
    requires TextAt(buffer, from, part) && TextAt(buffer, from + i, text) && i + |text| <= |part|
    ensures TextAt(part, i, text) && forall k :: 0 <= k < |part| ==> part[k] == buffer[from + k]
  {
    forall k | 0 <= k < |part|
      ensures part[k] == buffer[from + k]
    {
      ByteOf(buffer, from, part, k);
    }
    assert part[i..i + |text|] == buffer[from + i..from + i + |text|];
  }

  lemma PieceInPart(buffer: Bytes, from: nat, part: Bytes, i: nat, p: Piece)
    requires TextAt(buffer, from, part) && PieceAt(buffer, from + i, p) && i + |Text(p)| <= |part|
    ensures PieceAt(part, i, p)
  {
    TextInPart(buffer, from, part, i, Text(p));
  }

  lemma FitsInPart(buffer: Bytes, from: nat, part: Bytes, i: nat, at: nat, p: Piece, size: nat)
    requires TextAt(buffer, from, part) && at == from + i && PieceFits(buffer, at, p, size) && i + size <= |part|
    ensures PieceFits(part, i, p, size)
  {
    PieceInPart(buffer, from, part, i, p);
  }

  /** The pieces are those of the part alone. */
  lemma {:induction false} WrittenInPart(buffer: Bytes, from: nat, part: Bytes, i: nat, at: nat, pieces: Pieces, end: nat)
    requires TextAt(buffer, from, part) && at == from + i && end == from + |part| && Written(buffer, at, pieces, end)
    ensures Written(part, i, pieces, |part|)
    decreases pieces
  {
    if pieces.Then? {
      var next, rest := at + pieces.size, pieces.rest;
      WrittenUpTo(buffer, next, rest, end);
      FitsInPart(buffer, from, part, i, at, pieces.p, pieces.size);
      WrittenInPart(buffer, from, part, i + pieces.size, next, rest, end);
      WrittenThen(part, i, pieces, i + pieces.size, |part|);
    }
  }

  lemma PartMeans(buffer: Bytes, from: nat, pieces: Pieces, end: nat)
    requires from <= end <= |buffer| && Written(buffer, from, pieces, end)
    ensures AllLegal(pieces) ==> Unescaped(buffer[from..end], 0) == Some(Meant(pieces))
  {
    WrittenInPart(buffer, from, buffer[from..end], 0, from, pieces, end);
    if AllLegal(pieces) {
      ReadsPieces(buffer[from..end], 0, pieces);
    }
  }

  /** Pieces between quotes are one token, which says what they mean. */
  lemma QuotedPieces(buffer: Bytes, start: nat, pieces: Pieces, end: nat, delimiter: byte) returns (token: Lexeme, next: nat)
    requires start < end < |buffer| && buffer[start] == buffer[end] == delimiter
    requires delimiter == QUOTE || delimiter == DOUBLE_QUOTE
    requires Written(buffer, start + 1, pieces, end) && NoneBare(pieces, {delimiter, 0, 10, 13})
    ensures (token, next) == QuotedToken(buffer, start)
    ensures token == Lexeme(PositionOf(buffer, start), PositionOf(buffer, next), QuotedString, buffer[start + 1..end])
    ensures next == end + 1
    ensures AllLegal(pieces) ==> Unescaped(token.text, 0) == Some(Meant(pieces))
  {
    QuotedPassesPieces(buffer, start + 1, pieces, end, delimiter);
    token, next := QuotedTokenUpTo(buffer, start, end);
    PartMeans(buffer, start + 1, pieces, end);
  }

  /** The same between backticks, where a brace by itself is none of the pieces. */
  lemma SectionPieces(buffer: Bytes, at: Position, from: nat, pieces: Pieces, end: nat, formatType: Type, endType: Type)
    returns (token: Lexeme, next: nat)
    requires from <= end < |buffer| && buffer[end] == BACKTICK
    requires Written(buffer, from, pieces, end) && NoneBare(pieces, {BACKTICK, OPEN_BRACE, 0, 10, 13})
    ensures (token, next) == SectionToken(buffer, at, from, formatType, endType)
    ensures token == Lexeme(at, PositionOf(buffer, next), endType, buffer[from..end]) && next == end + 1
    ensures AllLegal(pieces) ==> Unescaped(token.text, 0) == Some(Meant(pieces))
  {
    SectionPassesPieces(buffer, from, pieces, end);
    token, next := SectionTokenUpTo(buffer, at, from, end, formatType, endType);
    PartMeans(buffer, from, pieces, end);
  }

  /** A line end, a zero or the end of the text breaks the token. */
  lemma BrokenPieces(buffer: Bytes, start: nat, pieces: Pieces, end: nat) returns (token: Lexeme, next: nat)
    requires start < end <= |buffer| && (buffer[start] == QUOTE || buffer[start] == DOUBLE_QUOTE)
    requires Written(buffer, start + 1, pieces, end) && NoneBare(pieces, {buffer[start], 0, 10, 13})
    requires end == |buffer| || buffer[end] == 0 || buffer[end] == 10 || buffer[end] == 13
    ensures (token, next) == QuotedToken(buffer, start)
    ensures token == Lexeme(PositionOf(buffer, start), PositionOf(buffer, end), BrokenString, []) && next == end
  {
    QuotedPassesPieces(buffer, start + 1, pieces, end, buffer[start]);
    token, next := QuotedToken(buffer, start).0, QuotedToken(buffer, start).1;
  }

  /** A brace between backticks opens an expression, unless it is doubled. */
  lemma OpeningPieces(buffer: Bytes, at: Position, from: nat, pieces: Pieces, end: nat, formatType: Type, endType: Type)
    returns (token: Lexeme, next: nat)
    requires from <= end < |buffer| && buffer[end] == OPEN_BRACE
    requires Written(buffer, from, pieces, end) && NoneBare(pieces, {BACKTICK, OPEN_BRACE, 0, 10, 13})
    ensures (token, next) == SectionToken(buffer, at, from, formatType, endType) && token.text == buffer[from..end]
    ensures
      if end + 1 < |buffer| && buffer[end + 1] == OPEN_BRACE then token.kind == BrokenInterpDoubleBrace && next == end + 2
      else token.kind == formatType && next == end + 1
    ensures AllLegal(pieces) ==> Unescaped(token.text, 0) == Some(Meant(pieces))
  {
    SectionPassesPieces(buffer, from, pieces, end);
    token, next := SectionToken(buffer, at, from, formatType, endType).0, SectionToken(buffer, at, from, formatType, endType).1;
    PartMeans(buffer, from, pieces, end);
  }
}
