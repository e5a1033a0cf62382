/** Reading quoted and interpolated strings off a source text. */
module StringLexer {
  import opened ByteStrings
  import opened Results
  import opened StringEscape

  datatype Type =
    | QuotedString | BrokenString | InterpStringSimple | InterpStringBegin | InterpStringMid | InterpStringEnd
    | BrokenInterpDoubleBrace

  datatype Position = Position(line: nat, column: int)

  datatype Lexeme = Lexeme(begin: Position, end: Position, kind: Type, text: Bytes)

  datatype BraceType = InterpolatedString | Normal

  predicate IsNewline(c: byte) {
    c == 10
  }

  /** The number of newlines before `n`, and where the line of `n` starts. */
  function LineAt(buffer: Bytes, n: nat): nat
    requires n <= |buffer|
  {
    if n == 0 then 0 else LineAt(buffer, n - 1) + if IsNewline(buffer[n - 1]) then 1 else 0
  }

  function LineStart(buffer: Bytes, n: nat): (r: nat)
    requires n <= |buffer|
    ensures r <= n
  {
    if n == 0 then 0 else if IsNewline(buffer[n - 1]) then n else LineStart(buffer, n - 1)
  }

  function PositionOf(buffer: Bytes, n: nat): Position
    requires n <= |buffer|
  {
    Position(LineAt(buffer, n), n - LineStart(buffer, n))
  }

  // ----- where a string ends -----

  function Peek(buffer: Bytes, i: nat): byte {
    if i < |buffer| then buffer[i] else 0
  }

  /** Past a backslash and what belongs to it. */
  function SkipBackslash(buffer: Bytes, i: nat): (r: nat)
    requires i < |buffer|
    ensures i < r <= |buffer|
  {
    match Peek(buffer, i + 1)
    case 13 => if Peek(buffer, i + 2) == 10 then i + 3 else i + 2
    case 0 => i + 1
    case 122 => AfterSpace(buffer, i + 2)
    case _ => i + 2
  }

  /** The place of the closing quote, or of what breaks the string. */
  function QuotedEnd(buffer: Bytes, i: nat, delimiter: byte): (r: nat)
    requires i <= |buffer| && delimiter != 0
    ensures i <= r <= |buffer|
    decreases |buffer| - i
  {
    var c := Peek(buffer, i);
    if c == delimiter || c == 0 || c == 13 || c == 10 then i
    else if c == BACKSLASH then QuotedEnd(buffer, SkipBackslash(buffer, i), delimiter)
    else QuotedEnd(buffer, i + 1, delimiter)
  }

  /** The place of the closing backtick, of a brace, or of what breaks the string. */
  function SectionEnd(buffer: Bytes, i: nat): (r: nat)
    requires i <= |buffer|
    ensures i <= r <= |buffer|
    decreases |buffer| - i
  {
    var c := Peek(buffer, i);
    if c == BACKTICK || c == 0 || c == 13 || c == 10 || c == OPEN_BRACE then i
    else if c == BACKSLASH then
      if Peek(buffer, i + 1) == 117 && Peek(buffer, i + 2) == OPEN_BRACE then SectionEnd(buffer, i + 3)
      else SectionEnd(buffer, SkipBackslash(buffer, i))
    else SectionEnd(buffer, i + 1)
  }

  // ----- escaped text is read as one string -----

  /** The shapes an escaped character has. */
  predicate Shaped(buffer: Bytes, i: nat, k: nat) {
    && i + k <= |buffer|
    && (|| (k == 1 && Plain(buffer[i]))
        || (&& (k == 2 || k == 4) && buffer[i] == BACKSLASH
            && buffer[i + 1] >= 32 && buffer[i + 1] != 117 && buffer[i + 1] != 122
            && (k == 4 ==> IsDigit(buffer[i + 2]) && IsDigit(buffer[i + 3]))))
  }

  lemma EscapedShape(buffer: Bytes, i: nat, c: byte, e: Bytes, mode: bool)
    requires e == EscapedChar(c, mode) && TextAt(buffer, i, e)
    ensures Shaped(buffer, i, |e|)
  {
    ByteOf(buffer, i, e, 0);
    if |e| > 1 {
      ByteOf(buffer, i, e, 1);
    }
    if |e| == 4 {
      ByteOf(buffer, i, e, 2);
      ByteOf(buffer, i, e, 3);
    }
  }

  lemma EscapedFirst(buffer: Bytes, i: nat, s: Bytes, mode: bool) returns (k: nat)
    requires s != [] && TextAt(buffer, i, Escaped(s, mode))
    ensures Shaped(buffer, i, k) && TextAt(buffer, i + k, Escaped(s[1..], mode))
    ensures |Escaped(s, mode)| == k + |Escaped(s[1..], mode)|
  {
    var c, e := EscapedParts(buffer, i, s, mode);
    EscapedShape(buffer, i, c, e, mode);
    k := |e|;
  }

  lemma QuotedPassesChar(buffer: Bytes, i: nat, k: nat, delimiter: byte)
    requires Shaped(buffer, i, k) && (delimiter == QUOTE || delimiter == DOUBLE_QUOTE)
    ensures QuotedEnd(buffer, i, delimiter) == QuotedEnd(buffer, i + k, delimiter)
  {
    if k == 4 {
      assert QuotedEnd(buffer, i + 2, delimiter) == QuotedEnd(buffer, i + 3, delimiter) == QuotedEnd(buffer, i + 4, delimiter);
    }
  }

  predicate SameEnd(buffer: Bytes, i: nat, j: nat)
    requires i <= |buffer| && j <= |buffer|
  {
    SectionEnd(buffer, i) == SectionEnd(buffer, j)
  }

  lemma SectionPassesChar(buffer: Bytes, i: nat, k: nat)
    requires Shaped(buffer, i, k)
    ensures SameEnd(buffer, i, i + k)
  {
    if k == 4 {
      assert SectionEnd(buffer, i + 2) == SectionEnd(buffer, i + 3) == SectionEnd(buffer, i + 4);
    }
  }

  /** Escaped text, in either mode, contains no end of a quoted string. */
  lemma {:induction false} QuotedPassesEscaped(buffer: Bytes, i: nat, s: Bytes, mode: bool, delimiter: byte, end: nat)
    requires TextAt(buffer, i, Escaped(s, mode)) && (delimiter == QUOTE || delimiter == DOUBLE_QUOTE)
    requires end == i + |Escaped(s, mode)|
    ensures QuotedEnd(buffer, i, delimiter) == QuotedEnd(buffer, end, delimiter)
    decreases |s|
  {
    if s != [] {
      var k := EscapedFirst(buffer, i, s, mode);
      QuotedPassesChar(buffer, i, k, delimiter);
      QuotedPassesEscaped(buffer, i + k, s[1..], mode, delimiter, end);
    }
  }

  /** Nor does it contain an end of a section between backticks. */
  lemma {:induction false} SectionPassesEscaped(buffer: Bytes, i: nat, s: Bytes, mode: bool, end: nat)
    requires TextAt(buffer, i, Escaped(s, mode)) && end == i + |Escaped(s, mode)|
    ensures SameEnd(buffer, i, end)
    decreases |s|
  {
    if s != [] {
      var k := EscapedFirst(buffer, i, s, mode);
      SectionPassesChar(buffer, i, k);
      SectionPassesEscaped(buffer, i + k, s[1..], mode, end);
    }
  }

  /** What the quoted lexer returns and where it leaves off. */
  function QuotedToken(buffer: Bytes, start: nat): (r: (Lexeme, nat))
    requires start < |buffer| && buffer[start] != 0
    ensures start < r.1 <= |buffer|
  {
    var end := QuotedEnd(buffer, start + 1, buffer[start]);
    if Peek(buffer, end) == buffer[start]
    then (Lexeme(PositionOf(buffer, start), PositionOf(buffer, end + 1), QuotedString, buffer[start + 1..end]), end + 1)
    else (Lexeme(PositionOf(buffer, start), PositionOf(buffer, end), BrokenString, []), end)
  }

  /** The same for a section of an interpolated string, from behind the backtick or brace that starts it. */
  function SectionToken(buffer: Bytes, start: Position, from: nat, formatType: Type, endType: Type): (r: (Lexeme, nat))
    requires from <= |buffer|
    ensures r.1 <= |buffer|
  {
    var end := SectionEnd(buffer, from);
    if Peek(buffer, end) == BACKTICK then (Lexeme(start, PositionOf(buffer, end + 1), endType, buffer[from..end]), end + 1)
    else if Peek(buffer, end) != OPEN_BRACE then (Lexeme(start, PositionOf(buffer, end), BrokenString, []), end)
    else if Peek(buffer, end + 1) == OPEN_BRACE
    then (Lexeme(start, PositionOf(buffer, end), BrokenInterpDoubleBrace, buffer[from..end]), end + 2)
    else (Lexeme(start, PositionOf(buffer, end + 1), formatType, buffer[from..end]), end + 1)
  }

  /** A buffer with an escaped text between two delimiters. */
  ghost predicate Delimited(buffer: Bytes, start: nat, delimiter: byte, e: Bytes) {
    && start + |e| + 2 <= |buffer|
    && buffer[start] == delimiter && buffer[start + 1 + |e|] == delimiter
    && buffer[start + 1..start + 1 + |e|] == e
  }

  lemma QuotedTokenUpTo(buffer: Bytes, start: nat, end: nat) returns (token: Lexeme, next: nat)
    requires start < end < |buffer| && buffer[start] != 0 && buffer[end] == buffer[start]
    requires QuotedEnd(buffer, start + 1, buffer[start]) == QuotedEnd(buffer, end, buffer[start])
    ensures (token, next) == QuotedToken(buffer, start)
    ensures token == Lexeme(PositionOf(buffer, start), PositionOf(buffer, next), QuotedString, buffer[start + 1..end])
    ensures next == end + 1
  {
    token, next := QuotedToken(buffer, start).0, QuotedToken(buffer, start).1;
  }

  lemma SectionTokenUpTo(buffer: Bytes, at: Position, from: nat, end: nat, formatType: Type, endType: Type)
    returns (token: Lexeme, next: nat)
    requires from <= end < |buffer| && buffer[end] == BACKTICK && SectionEnd(buffer, from) == SectionEnd(buffer, end)
    ensures (token, next) == SectionToken(buffer, at, from, formatType, endType)
    ensures token == Lexeme(at, PositionOf(buffer, next), endType, buffer[from..end]) && next == end + 1
  {
    token, next := SectionToken(buffer, at, from, formatType, endType).0, SectionToken(buffer, at, from, formatType, endType).1;
  }

  /** A token of the kind that says `s`, from `start` up to `next`. */
  ghost predicate Says(token: Lexeme, next: nat, kind: Type, start: nat, e: Bytes, s: Bytes) {
    token.kind == kind && token.text == e && next == start + |e| + 2 && Unescaped(e, 0) == Some(s)
  }

  lemma SaysText(token: Lexeme, next: nat, kind: Type, start: nat, s: Bytes, mode: bool)
    requires token.kind == kind && token.text == Escaped(s, mode) && next == start + |Escaped(s, mode)| + 2
    ensures Says(token, next, kind, start, Escaped(s, mode), s)
  {
    UnescapeUndoesEscape(s, mode);
  }

  /**
   Escaping, reading a quoted string and undoing the escapes cancel, in both escape modes and for both quotes: one token
   that spans exactly the escaped text, which says the text again.
   */
  lemma QuotedRoundTrip(buffer: Bytes, start: nat, s: Bytes, mode: bool, delimiter: byte) returns (token: Lexeme, next: nat)
    requires delimiter == QUOTE || delimiter == DOUBLE_QUOTE
    requires Delimited(buffer, start, delimiter, Escaped(s, mode))
    ensures (token, next) == QuotedToken(buffer, start)
    ensures Says(token, next, QuotedString, start, Escaped(s, mode), s)
  {
    var e := Escaped(s, mode);
    var end := start + 1 + |e|;
    QuotedPassesEscaped(buffer, start + 1, s, mode, delimiter, end);
    token, next := QuotedTokenUpTo(buffer, start, end);
    SaysText(token, next, QuotedString, start, s, mode);
  }

  /** The same between backticks. */
  lemma InterpolatedRoundTrip(buffer: Bytes, start: nat, s: Bytes, mode: bool, at: Position, formatType: Type, endType: Type)
    returns (token: Lexeme, next: nat)
    requires Delimited(buffer, start, BACKTICK, Escaped(s, mode))
    ensures (token, next) == SectionToken(buffer, at, start + 1, formatType, endType)
    ensures Says(token, next, endType, start, Escaped(s, mode), s)
  {
    var e := Escaped(s, mode);
    var end := start + 1 + |e|;
    SectionPassesEscaped(buffer, start + 1, s, mode, end);
    token, next := SectionTokenUpTo(buffer, at, start + 1, end, formatType, endType);
    SaysText(token, next, endType, start, s, mode);
  }

  // ----- the lexer -----

  class Lexer {
    const buffer: Bytes
    var offset: nat
    var line: nat
    var lineOffset: nat
    var braceStack: seq<BraceType>

    constructor (buffer: Bytes)
      ensures this.buffer == buffer && offset == 0 && braceStack == [] && Valid()
    {
      this.buffer, offset, line, lineOffset, braceStack := buffer, 0, 0, 0, [];
    }

    /** The line counter is right. */
    ghost predicate Valid()
      reads this
    {
      offset <= |buffer| && line == LineAt(buffer, offset) && lineOffset == LineStart(buffer, offset)
    }

    function CurrentPosition(): (r: Position)
      requires Valid()
      reads this
      ensures r == PositionOf(buffer, offset)
    {
      Position(line, offset - lineOffset)
    }

    /** For a character known not to be a newline. */
    method Consume()
      requires Valid() && offset < |buffer| && !IsNewline(buffer[offset])
      modifies this`offset
      ensures Valid() && offset == old(offset) + 1
    {
      offset := offset + 1;
    }

    method ConsumeAny()
      requires Valid() && offset < |buffer|
      modifies this`offset, this`line, this`lineOffset
      ensures Valid() && offset == old(offset) + 1
    {
      if IsNewline(buffer[offset]) {
        line := line + 1;
        lineOffset := offset + 1;
      }
      offset := offset + 1;
    }

    method ReadBackslashInString()
      requires Valid() && offset < |buffer| && buffer[offset] == BACKSLASH
      modifies this`offset, this`line, this`lineOffset
      ensures Valid() && offset == SkipBackslash(buffer, old(offset))
    {
      ghost var start := offset;
      Consume();
      var c := Peek(buffer, offset);
      if c == 13 {
        Consume();
        if Peek(buffer, offset) == 10 {
          ConsumeAny();
        }
      } else if c == 0 {
      } else if c == 122 {
        Consume();
        while IsSpace(Peek(buffer, offset))
          invariant Valid() && start + 2 <= offset && AfterSpace(buffer, offset) == AfterSpace(buffer, start + 2)
          decreases |buffer| - offset
        {
          ConsumeAny();
        }
      } else {
        ConsumeAny();
      }
    }

    method ReadQuotedString() returns (r: Lexeme)
      requires Valid() && offset < |buffer| && (buffer[offset] == QUOTE || buffer[offset] == DOUBLE_QUOTE)
      modifies this`offset, this`line, this`lineOffset
      ensures Valid() && (r, offset) == QuotedToken(buffer, old(offset))
    {
      var start := CurrentPosition();
      ghost var first := offset;
      var delimiter := Peek(buffer, offset);
      Consume();
      var startOffset := offset;
      while Peek(buffer, offset) != delimiter
        invariant Valid() && startOffset <= offset
        invariant QuotedEnd(buffer, offset, delimiter) == QuotedEnd(buffer, startOffset, delimiter)
        decreases |buffer| - offset
      {
        var c := Peek(buffer, offset);
        if c == 0 || c == 13 || c == 10 {
          return Lexeme(start, CurrentPosition(), BrokenString, []);
        } else if c == BACKSLASH {
          ReadBackslashInString();
        } else {
          Consume();
        }
      }
      Consume();
      return Lexeme(start, CurrentPosition(), QuotedString, buffer[startOffset..offset - 1]);
    }

    method ReadInterpolatedStringBegin() returns (r: Lexeme)
      requires Valid() && offset < |buffer| && buffer[offset] == BACKTICK
      modifies this
      ensures Valid()
      ensures (r, offset) ==
              SectionToken(buffer, PositionOf(buffer, old(offset)), old(offset) + 1, InterpStringBegin, InterpStringSimple)
      ensures braceStack == if r.kind == InterpStringBegin || r.kind == BrokenInterpDoubleBrace
                            then old(braceStack) + [InterpolatedString] else old(braceStack)
    {
      var start := CurrentPosition();
      Consume();
      r := ReadInterpolatedStringSection(start, InterpStringBegin, InterpStringSimple);
    }

    /** The brace of a code point in hexadecimal digits opens no expression. */
    method ReadBackslashInSection()
      requires Valid() && offset < |buffer| && buffer[offset] == BACKSLASH
      modifies this`offset, this`line, this`lineOffset
      ensures Valid() && old(offset) < offset && SectionEnd(buffer, offset) == SectionEnd(buffer, old(offset))
    {
      if Peek(buffer, offset + 1) == 117 && Peek(buffer, offset + 2) == OPEN_BRACE {
        Consume();
        Consume();
        Consume();
      } else {
        ReadBackslashInString();
      }
    }

    /** At a brace: an expression follows, unless it is doubled. */
    method OpenExpression(start: Position, startOffset: nat, formatType: Type, ghost endType: Type) returns (r: Lexeme)
      requires Valid() && startOffset <= offset && Peek(buffer, offset) == OPEN_BRACE && SectionEnd(buffer, startOffset) == offset
      modifies this`offset, this`braceStack
      ensures Valid() && (r, offset) == SectionToken(buffer, start, startOffset, formatType, endType)
      ensures braceStack == old(braceStack) + [InterpolatedString] && (r.kind == formatType || r.kind == BrokenInterpDoubleBrace)
    {
      braceStack := braceStack + [InterpolatedString];
      if Peek(buffer, offset + 1) == OPEN_BRACE {
        r := Lexeme(start, CurrentPosition(), BrokenInterpDoubleBrace, buffer[startOffset..offset]);
        Consume();
        Consume();
        return;
      }
      Consume();
      return Lexeme(start, CurrentPosition(), formatType, buffer[startOffset..offset - 1]);
    }

    /** A brace that opens an expression is remembered, so that the one that closes it is recognized. */
    method ReadInterpolatedStringSection(start: Position, formatType: Type, endType: Type) returns (r: Lexeme)
      requires Valid() && formatType != endType && formatType != BrokenString && endType != BrokenInterpDoubleBrace
      modifies this
      ensures Valid() && (r, offset) == SectionToken(buffer, start, old(offset), formatType, endType)
      ensures braceStack == if r.kind == formatType || r.kind == BrokenInterpDoubleBrace
                            then old(braceStack) + [InterpolatedString] else old(braceStack)
    {
      var startOffset := offset;
      while Peek(buffer, offset) != BACKTICK
        invariant Valid() && startOffset <= offset && braceStack == old(braceStack)
        invariant SectionEnd(buffer, offset) == SectionEnd(buffer, startOffset)
        decreases |buffer| - offset
      {
        var c := Peek(buffer, offset);
        if c == 0 || c == 13 || c == 10 {
          return Lexeme(start, CurrentPosition(), BrokenString, []);
        } else if c == BACKSLASH {
          ReadBackslashInSection();
        } else if c == OPEN_BRACE {
          r := OpenExpression(start, startOffset, formatType, endType);
          return;
        } else {
          Consume();
        }
      }
      Consume();
      return Lexeme(start, CurrentPosition(), endType, buffer[startOffset..offset - 1]);
    }
  }
}
