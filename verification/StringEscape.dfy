/** Escape sequences: writing them, reading them, and why reading undoes writing. */
module StringEscape {
  import opened ByteStrings
  import opened Results

  const BACKSLASH: byte := 92
  const QUOTE: byte := 39
  const DOUBLE_QUOTE: byte := 34
  const BACKTICK: byte := 96
  const OPEN_BRACE: byte := 123
  const CLOSE_BRACE: byte := 125

  // ----- writing -----

  /** The letter or sign after the backslash, for the characters that have one. */
  function ShortEscape(c: byte): Option<byte> {
    match c
    case 7 => Some(97)
    case 8 => Some(98)
    case 9 => Some(116)
    case 10 => Some(110)
    case 11 => Some(118)
    case 12 => Some(102)
    case 13 => Some(114)
    case 34 => Some(DOUBLE_QUOTE)
    case 39 => Some(QUOTE)
    case 92 => Some(BACKSLASH)
    case _ => None
  }

  predicate Plain(c: byte) {
    c >= 32 && c != BACKSLASH && c != QUOTE && c != DOUBLE_QUOTE && c != BACKTICK && c != OPEN_BRACE
  }

  function ThreeDigits(c: byte): Bytes {
    [48 + c / 100, 48 + c / 10 % 10, 48 + c % 10]
  }

  function EscapedChar(c: byte, forInterpString: bool): (r: Bytes)
    ensures |r| > 0
  {
    if Plain(c) then [c]
    else if forInterpString && (c == BACKTICK || c == OPEN_BRACE) then [BACKSLASH, c]
    else
      match ShortEscape(c)
      case Some(e) => [BACKSLASH, e]
      case None => [BACKSLASH] + ThreeDigits(c)
  }

  function Escaped(s: Bytes, forInterpString: bool): Bytes {
    if s == [] then [] else EscapedChar(s[0], forInterpString) + Escaped(s[1..], forInterpString)
  }

  lemma {:induction false} EscapedSnoc(s: Bytes, c: byte, forInterpString: bool)
    ensures Escaped(s + [c], forInterpString) == Escaped(s, forInterpString) + EscapedChar(c, forInterpString)
    decreases |s|
  {
    if s == [] {
      assert [c][1..] == [];
    } else {
      assert (s + [c])[1..] == s[1..] + [c];
      EscapedSnoc(s[1..], c, forInterpString);
    }
  }

  method Escape(s: Bytes, forInterpString: bool) returns (r: Bytes)
    ensures r == Escaped(s, forInterpString)
  {
    r := [];
    for i := 0 to |s|
      invariant r == Escaped(s[..i], forInterpString)
    {
      var c := s[i];
      EscapedSnoc(s[..i], c, forInterpString);
      assert s[..i + 1] == s[..i] + [c];
      if c >= 32 && c != BACKSLASH && c != QUOTE && c != DOUBLE_QUOTE && c != BACKTICK && c != OPEN_BRACE {
        r := r + [c];
      } else {
        r := r + [BACKSLASH];
        if forInterpString && (c == BACKTICK || c == OPEN_BRACE) {
          r := r + [c];
          continue;
        }
        var e := ShortEscape(c);
        if e.Some? {
          r := r + [e.value];
        } else {
          r := r + ThreeDigits(c);
        }
      }
    }
    assert s[..|s|] == s;
  }

  // ----- reading -----

  predicate IsDigit(c: byte) {
    48 <= c <= 57
  }

  predicate IsHexDigit(c: byte) {
    IsDigit(c) || 65 <= c <= 70 || 97 <= c <= 102
  }

  predicate IsSpace(c: byte) {
    c == 32 || 9 <= c <= 13
  }

  function HexValue(c: byte): (r: nat)
    requires IsHexDigit(c)
    ensures r < 16
  {
    if IsDigit(c) then c - 48 else if c < 97 then c - 65 + 10 else c - 97 + 10
  }

  function UnescapeLetter(c: byte): byte {
    match c
    case 97 => 7
    case 98 => 8
    case 102 => 12
    case 110 => 10
    case 114 => 13
    case 116 => 9
    case 118 => 11
    case _ => c
  }

  function Utf8(code: nat): (r: Bytes)
    ensures |r| <= 4
  {
    if code < 0x80 then [code]
    else if code < 0x800 then [0xC0 + code / 0x40, 0x80 + code % 0x40]
    else if code < 0x1_0000 then [0xE0 + code / 0x1000, 0x80 + code / 0x40 % 0x40, 0x80 + code % 0x40]
    else if code < 0x11_0000 then
      [0xF0 + code / 0x4_0000, 0x80 + code / 0x1000 % 0x40, 0x80 + code / 0x40 % 0x40, 0x80 + code % 0x40]
    else []
  }

  /** The first place from `i` on that is no white space. */
  function AfterSpace(data: Bytes, i: nat): (r: nat)
    requires i <= |data|
    ensures i <= r <= |data|
    decreases |data| - i
  {
    if i < |data| && IsSpace(data[i]) then AfterSpace(data, i + 1) else i
  }

  /** Hexadecimal digits up to a closing brace, or up to the limit; the code wraps around at 32 bits. */
  function HexRun(data: Bytes, i: nat, limit: nat, code: nat): (r: Option<(nat, nat)>)
    requires i <= |data| && i <= limit
    ensures r.Some? ==> i <= r.value.1 <= |data|
    decreases limit - i
  {
    if i == limit then Some((code, i))
    else if i == |data| then None
    else if data[i] == CLOSE_BRACE then Some((code, i))
    else if !IsHexDigit(data[i]) then None
    else HexRun(data, i + 1, limit, (16 * code + HexValue(data[i])) % 0x1_0000_0000)
  }

  /** At most `n` more decimal digits. */
  function DecimalRun(data: Bytes, i: nat, n: nat, code: nat): (r: (nat, nat))
    requires i <= |data|
    ensures i <= r.1 <= |data|
    decreases n
  {
    if n == 0 || i == |data| || !IsDigit(data[i]) then (code, i)
    else DecimalRun(data, i + 1, n - 1, 10 * code + (data[i] - 48))
  }

  /** One escape sequence, the backslash at `i`: its bytes and where it ends. */
  function ReadEscape(data: Bytes, i: nat): (r: Option<(Bytes, nat)>)
    requires i < |data|
    ensures r.Some? ==> i + 2 <= r.value.1 <= |data| && |r.value.0| <= r.value.1 - i
  {
    if i + 1 == |data| then None else
      var e, j := data[i + 1], i + 2;
      if e == 10 then Some(([10], j))
      else if e == 13 then Some(([10], if j < |data| && data[j] == 10 then j + 1 else j))
      else if e == 0 then None
      else if e == 120 then
        if j + 2 <= |data| && IsHexDigit(data[j]) && IsHexDigit(data[j + 1])
        then Some(([16 * HexValue(data[j]) + HexValue(data[j + 1])], j + 2))
        else None
      else if e == 122 then Some(([], AfterSpace(data, j)))
      else if e == 117 then ReadUnicode(data, j)
      else if IsDigit(e) then
        var (code, next) := DecimalRun(data, j, 2, e - 48);
        if code > 255 then None else Some(([code], next))
      else Some(([UnescapeLetter(e)], j))
  }

  function ReadUnicode(data: Bytes, j: nat): (r: Option<(Bytes, nat)>)
    requires 2 <= j <= |data|
    ensures r.Some? ==> j <= r.value.1 <= |data| && |r.value.0| <= r.value.1 - (j - 2)
  {
    if j + 3 > |data| || data[j] != OPEN_BRACE || data[j + 1] == CLOSE_BRACE then None else
      match HexRun(data, j + 1, j + 17, 0)
      case None => None
      case Some((code, next)) =>
        if next == |data| || data[next] != CLOSE_BRACE || Utf8(code) == [] then None else Some((Utf8(code), next + 1))
  }

  function Prepend(bytes: Bytes, rest: Option<Bytes>): Option<Bytes> {
    match rest
    case None => None
    case Some(r) => Some(bytes + r)
  }

  /** The text from `i` on with its escape sequences replaced, unless one is malformed. */
  function Unescaped(data: Bytes, i: nat): Option<Bytes>
    requires i <= |data|
    decreases |data| - i
  {
    if i == |data| then Some([])
    else if data[i] != BACKSLASH then Prepend([data[i]], Unescaped(data, i + 1))
    else
      match ReadEscape(data, i)
      case None => None
      case Some((bytes, next)) => Prepend(bytes, Unescaped(data, next))
  }

  // ----- reading undoes writing -----

  ghost predicate TextAt(data: Bytes, i: nat, text: Bytes) {
    i + |text| <= |data| && data[i..i + |text|] == text
  }

  lemma TextParts(data: Bytes, i: nat, a: Bytes, b: Bytes)
    requires TextAt(data, i, a + b)
    ensures TextAt(data, i, a) && TextAt(data, i + |a|, b)
  {
    assert (a + b)[..|a|] == a && (a + b)[|a|..] == b;
  }

  lemma ByteOf(data: Bytes, i: nat, text: Bytes, k: nat)
    requires TextAt(data, i, text) && k < |text|
    ensures data[i + k] == text[k]
  {
    assert data[i..i + |text|][k] == text[k];
  }

  lemma ReadsEscapedChar(data: Bytes, i: nat, c: byte, forInterpString: bool)
    requires !Plain(c) && TextAt(data, i, EscapedChar(c, forInterpString))
    ensures ReadEscape(data, i) == Some(([c], i + |EscapedChar(c, forInterpString)|))
  {
    var e := EscapedChar(c, forInterpString);
    ByteOf(data, i, e, 1);
    if |e| == 4 {
      ByteOf(data, i, e, 2);
      ByteOf(data, i, e, 3);
      ThreeDigitsRead(data, i + 2, c);
    }
  }

  lemma ThreeDigitsRead(data: Bytes, j: nat, c: byte)
    requires j + 2 <= |data| && data[j] == ThreeDigits(c)[1] && data[j + 1] == ThreeDigits(c)[2]
    ensures DecimalRun(data, j, 2, ThreeDigits(c)[0] - 48) == (c, j + 2)
  {
    var first := ThreeDigits(c)[0] - 48;
    assert DecimalRun(data, j + 1, 1, 10 * first + c / 10 % 10) == DecimalRun(data, j + 2, 0, c);
  }

  lemma UnescapesChar(data: Bytes, i: nat, c: byte, e: Bytes, forInterpString: bool)
    requires e == EscapedChar(c, forInterpString) && TextAt(data, i, e)
    ensures Unescaped(data, i) == Prepend([c], Unescaped(data, i + |e|))
  {
    ByteOf(data, i, e, 0);
    if !Plain(c) {
      ReadsEscapedChar(data, i, c, forInterpString);
    }
  }

  /** The first character of an escaped text, and the rest. */
  lemma EscapedParts(data: Bytes, i: nat, s: Bytes, forInterpString: bool) returns (c: byte, e: Bytes)
    requires s != [] && TextAt(data, i, Escaped(s, forInterpString))
    ensures c == s[0] && e == EscapedChar(c, forInterpString) && TextAt(data, i, e)
    ensures TextAt(data, i + |e|, Escaped(s[1..], forInterpString))
    ensures |Escaped(s, forInterpString)| == |e| + |Escaped(s[1..], forInterpString)|
  {
    c := s[0];
    e := EscapedChar(c, forInterpString);
    var rest := Escaped(s[1..], forInterpString);
    assert Escaped(s, forInterpString) == e + rest;
    TextParts(data, i, e, rest);
  }

  lemma UnescapesFirst(data: Bytes, i: nat, s: Bytes, forInterpString: bool) returns (k: nat)
    requires s != [] && TextAt(data, i, Escaped(s, forInterpString))
    ensures TextAt(data, i + k, Escaped(s[1..], forInterpString))
    ensures |Escaped(s, forInterpString)| == k + |Escaped(s[1..], forInterpString)|
    ensures Unescaped(data, i + k) == Some(s[1..]) ==> Unescaped(data, i) == Some(s)
  {
    var c, e := EscapedParts(data, i, s, forInterpString);
    UnescapesChar(data, i, c, e, forInterpString);
    PrependFirst(s);
    k := |e|;
  }

  lemma {:induction false} UnescapesFrom(data: Bytes, i: nat, s: Bytes, forInterpString: bool)
    requires TextAt(data, i, Escaped(s, forInterpString)) && i + |Escaped(s, forInterpString)| == |data|
    ensures Unescaped(data, i) == Some(s)
    decreases |s|
  {
    if s != [] {
      var k := UnescapesFirst(data, i, s, forInterpString);
      UnescapesFrom(data, i + k, s[1..], forInterpString);
    }
  }

  lemma PrependFirst(s: Bytes)
    requires s != []
    ensures Prepend([s[0]], Some(s[1..])) == Some(s)
  {
    assert s == [s[0]] + s[1..];
  }

  /** Escaped text, in either mode, reads back as the text. */
  lemma UnescapeUndoesEscape(s: Bytes, forInterpString: bool)
    ensures Unescaped(Escaped(s, forInterpString), 0) == Some(s)
  {
    UnescapesFrom(Escaped(s, forInterpString), 0, s, forInterpString);
  }

  /** Text without a backslash is left alone. */
  lemma {:induction false} NothingToUnescape(data: Bytes, i: nat)
    requires i <= |data| && BACKSLASH !in data
    ensures Unescaped(data, i) == Some(data[i..])
    decreases |data| - i
  {
    if i < |data| {
      NothingToUnescape(data, i + 1);
      assert data[i] in data;
      assert data[i..] == [data[i]] + data[i + 1..];
    } else {
      assert data[i..] == [];
    }
  }

  // ----- in place -----

  /** The bytes not read yet are as they were. */
  ghost predicate RestSame(now: Bytes, was: Bytes, i: nat) {
    |now| == |was| && forall j :: i <= j < |was| ==> now[j] == was[j]
  }

  /** What the buffer says when the bytes before `i` are read and `write` ones are written. */
  ghost predicate InStep(now: Bytes, was: Bytes, write: nat, i: nat) {
    && write <= i <= |was| && RestSame(now, was, i)
    && Unescaped(was, 0) == Prepend(now[..write], Unescaped(was, i))
  }

  lemma PrependTwice(a: Bytes, b: Bytes, r: Option<Bytes>)
    ensures Prepend(a, Prepend(b, r)) == Prepend(a + b, r)
  {
    if r.Some? {
      assert a + (b + r.value) == a + b + r.value;
    }
  }

  /** Writing `bytes` for what was read from `i` to `next`. */
  lemma Writes(now: Bytes, then_: Bytes, was: Bytes, write: nat, i: nat, bytes: Bytes, next: nat)
    requires InStep(now, was, write, i) && i <= next <= |was| && |then_| == |was|
    requires Unescaped(was, i) == Prepend(bytes, Unescaped(was, next))
    requires write + |bytes| <= next
    requires then_ == now[..write] + bytes + now[write + |bytes|..]
    ensures InStep(then_, was, write + |bytes|, next)
  {
    assert then_[..write + |bytes|] == now[..write] + bytes;
    PrependTwice(now[..write], bytes, Unescaped(was, next));
  }

  lemma WritesOne(now: Bytes, was: Bytes, write: nat, i: nat, b: byte, next: nat)
    requires InStep(now, was, write, i) && i < next <= |was|
    requires Unescaped(was, i) == Prepend([b], Unescaped(was, next))
    ensures InStep(now[write := b], was, write + 1, next)
  {
    assert now[write := b] == now[..write] + [b] + now[write + 1..];
    Writes(now, now[write := b], was, write, i, [b], next);
  }

  /** A sequence that is read is replaced; one that is malformed spoils the whole text. */
  lemma EscapeStep(was: Bytes, i: nat)
    requires i < |was| && was[i] == BACKSLASH
    ensures
      match ReadEscape(was, i)
      case None => Unescaped(was, i) == None
      case Some((bytes, next)) => Unescaped(was, i) == Prepend(bytes, Unescaped(was, next))
  {
  }

  method ToUtf8(data: array<byte>, write: nat, code: nat) returns (n: nat)
    requires write + |Utf8(code)| <= data.Length
    modifies data
    ensures n == |Utf8(code)|
    ensures data[..] == old(data[..write]) + Utf8(code) + old(data[write + n..])
  {
    n := 0;
    if code < 0x80 {
      data[write] := code;
      n := 1;
    } else if code < 0x800 {
      data[write] := 0xC0 + code / 0x40;
      data[write + 1] := 0x80 + code % 0x40;
      n := 2;
    } else if code < 0x1_0000 {
      data[write] := 0xE0 + code / 0x1000;
      data[write + 1] := 0x80 + code / 0x40 % 0x40;
      data[write + 2] := 0x80 + code % 0x40;
      n := 3;
    } else if code < 0x11_0000 {
      data[write] := 0xF0 + code / 0x4_0000;
      data[write + 1] := 0x80 + code / 0x1000 % 0x40;
      data[write + 2] := 0x80 + code / 0x40 % 0x40;
      data[write + 3] := 0x80 + code % 0x40;
      n := 4;
    }
  }

  /**
   Replaces the escape sequences in the buffer itself. What is written never gets ahead of what is read, on any input;
   the result is the number of bytes that are left, or that a sequence is malformed.
   */
  method FixupQuotedString(data: array<byte>) returns (ok: bool, size: nat)
    modifies data
    ensures ok == Unescaped(old(data[..]), 0).Some?
    ensures ok ==> size <= data.Length && Unescaped(old(data[..]), 0) == Some(data[..size])
  {
    ghost var was := data[..];
    if data.Length == 0 || BACKSLASH !in data[..] {
      NothingToUnescape(was, 0);
      assert data[..data.Length] == was[0..];
      return true, data.Length;
    }
    size := data.Length;
    var write: nat := 0;
    var i: nat := 0;
    assert Prepend([], Unescaped(was, 0)) == Unescaped(was, 0) by {
      if Unescaped(was, 0).Some? {
        assert [] + Unescaped(was, 0).value == Unescaped(was, 0).value;
      }
    }
    while i < size
      invariant size == data.Length == |was|
      invariant InStep(data[..], was, write, i)
      decreases size - i
    {
      ghost var now := data[..];
      assert data[i] == now[i] == was[i];
      if data[i] != BACKSLASH {
        WritesOne(now, was, write, i, was[i], i + 1);
        data[write] := data[i];
        write := write + 1;
        i := i + 1;
        continue;
      }
      var done, next, written := FixupEscape(data, write, i, was);
      if !done {
        return false, 0;
      }
      write := written;
      i := next;
    }
    assert Unescaped(was, i) == Some([]);
    assert data[..write] + [] == data[..write];
    return true, write;
  }

  /** One escape sequence. */
  method FixupEscape(data: array<byte>, write: nat, start: nat, ghost was: Bytes) returns (ok: bool, i: nat, written: nat)
    requires InStep(data[..], was, write, start) && start < data.Length && was[start] == BACKSLASH
    modifies data
    ensures ok == ReadEscape(was, start).Some?
    ensures !ok ==> Unescaped(was, 0) == None
    ensures ok ==> start < i <= data.Length && InStep(data[..], was, written, i)
  {
    EscapeStep(was, start);
    ok, i, written := false, start, write;
    var size := data.Length;
    ghost var now := data[..];
    if start + 1 == size {
      return;
    }
    var escape := data[start + 1];
    assert escape == now[start + 1] == was[start + 1];
    i := start + 2;
    if escape == 0 {
      return;
    } else if escape == 122 {
      i := SkipSpace(data, i, was);
      assert now == now[..write] + [] + now[write..];
      Writes(now, now, was, write, start, [], i);
      return true, i, write;
    } else if escape == 117 {
      ok, i, written := FixupUnicode(data, write, start, was);
      return;
    }
    var code: byte := 10;
    if escape == 10 {
    } else if escape == 13 {
      if i < size && data[i] == 10 {
        assert was[i] == now[i] == 10;
        i := i + 1;
      } else {
        assert i < size ==> was[i] == now[i];
      }
    } else if escape == 120 {
      ok, code := ReadHexPair(data, i, was);
      if !ok {
        return;
      }
      i := i + 2;
    } else if IsDigit(escape) {
      ok, code, i := ReadDecimal(data, i, escape, was);
      if !ok {
        return;
      }
    } else {
      code := UnescapeLetter(escape);
    }
    WritesOne(now, was, write, start, code, i);
    data[write] := code;
    return true, i, write + 1;
  }

  method SkipSpace(data: array<byte>, start: nat, ghost was: Bytes) returns (i: nat)
    requires start <= data.Length && RestSame(data[..], was, start)
    ensures i == AfterSpace(was, start)
  {
    i := start;
    while i < data.Length && IsSpace(data[i])
      invariant start <= i <= data.Length && AfterSpace(was, i) == AfterSpace(was, start)
    {
      assert data[..][i] == was[i];
      i := i + 1;
    }
    assert i < data.Length ==> data[..][i] == was[i];
  }

  /** Exactly two digits. */
  method ReadHexPair(data: array<byte>, i: nat, ghost was: Bytes) returns (ok: bool, code: byte)
    requires i <= data.Length && RestSame(data[..], was, i)
    ensures ok == (i + 2 <= |was| && IsHexDigit(was[i]) && IsHexDigit(was[i + 1]))
    ensures ok ==> code == 16 * HexValue(was[i]) + HexValue(was[i + 1])
  {
    ok, code := false, 0;
    if i + 2 > data.Length {
      return;
    }
    var c: nat := 0;
    for j := 0 to 2
      invariant forall k :: i <= k < i + j ==> IsHexDigit(was[k])
      invariant c == if j == 0 then 0 else if j == 1 then HexValue(was[i]) else 16 * HexValue(was[i]) + HexValue(was[i + 1])
    {
      var ch := data[i + j];
      assert ch == data[..][i + j] == was[i + j];
      if !IsHexDigit(ch) {
        return;
      }
      c := 16 * c + HexValue(ch);
    }
    assert IsHexDigit(was[i]) && IsHexDigit(was[i + 1]);
    return true, c;
  }

  /** Up to three digits, of which the first has been read. */
  method ReadDecimal(data: array<byte>, start: nat, escape: byte, ghost was: Bytes) returns (ok: bool, value: byte, i: nat)
    requires start <= data.Length && RestSame(data[..], was, start) && IsDigit(escape)
    ensures
      var (code, next) := DecimalRun(was, start, 2, escape - 48);
      ok == (code <= 255) && (ok ==> value == code && i == next)
  {
    i := start;
    var code: nat := escape - 48;
    var j := 0;
    while j < 2
      invariant 0 <= j <= 2 && start <= i <= data.Length
      invariant DecimalRun(was, i, 2 - j, code) == DecimalRun(was, start, 2, escape - 48)
    {
      if i == data.Length || !IsDigit(data[i]) {
        assert i < data.Length ==> data[..][i] == was[i];
        break;
      }
      assert data[..][i] == was[i];
      code := 10 * code + (data[i] - 48);
      i := i + 1;
      j := j + 1;
    }
    assert DecimalRun(was, start, 2, escape - 48) == (code, i);
    ok := code <= 255;
    value := if ok then code else 0;
  }

  /** At most sixteen digits, up to a brace. */
  method ReadHexRun(data: array<byte>, start: nat, ghost was: Bytes) returns (ok: bool, code: nat, i: nat)
    requires start <= data.Length && RestSame(data[..], was, start)
    ensures HexRun(was, start, start + 16, 0) == if ok then Some((code, i)) else None
  {
    ok, code, i := false, 0, start;
    var j := 0;
    while j < 16
      invariant 0 <= j <= 16 && start <= i <= data.Length
      invariant i == start + j && HexRun(was, i, start + 16, code) == HexRun(was, start, start + 16, 0)
    {
      if i == data.Length {
        return;
      }
      var ch := data[i];
      assert ch == data[..][i] == was[i];
      if ch == CLOSE_BRACE {
        break;
      }
      if !IsHexDigit(ch) {
        return;
      }
      code := (16 * code + HexValue(ch)) % 0x1_0000_0000;
      i := i + 1;
      j := j + 1;
    }
    ok := true;
  }

  /** What stands between the braces. */
  method ReadCode(data: array<byte>, start: nat, ghost was: Bytes) returns (ok: bool, code: nat, next: nat)
    requires 2 <= start <= data.Length && RestSame(data[..], was, start)
    ensures ReadUnicode(was, start) == if ok && Utf8(code) != [] then Some((Utf8(code), next)) else None
    ensures ok ==> start + 3 <= next <= data.Length
  {
    ok, code, next := false, 0, start;
    var i := start;
    var size := data.Length;
    if i + 3 > size {
      return;
    }
    assert data[..][i] == was[i] && data[..][i + 1] == was[i + 1];
    if data[i] != OPEN_BRACE || data[i + 1] == CLOSE_BRACE {
      return;
    }
    ok, code, next := ReadHexRun(data, i + 1, was);
    if !ok {
      return;
    }
    assert next < size ==> data[..][next] == was[next];
    if next == size || data[next] != CLOSE_BRACE {
      ok := false;
      return;
    }
    next := next + 1;
  }

  method FixupUnicode(data: array<byte>, write: nat, start: nat, ghost was: Bytes) returns (ok: bool, i: nat, written: nat)
    requires InStep(data[..], was, write, start) && start + 2 <= data.Length
    requires was[start] == BACKSLASH && ReadEscape(was, start) == ReadUnicode(was, start + 2)
    modifies data
    ensures ok == ReadEscape(was, start).Some?
    ensures !ok ==> Unescaped(was, 0) == None
    ensures ok ==> start < i <= data.Length && InStep(data[..], was, written, i)
  {
    EscapeStep(was, start);
    ghost var now := data[..];
    var code: nat;
    ok, code, i := ReadCode(data, start + 2, was);
    written := write;
    if !ok || Utf8(code) == [] {
      ok := false;
      return;
    }
    var n := ToUtf8(data, write, code);
    Writes(now, data[..], was, write, start, Utf8(code), i);
    written := write + n;
  }
}
