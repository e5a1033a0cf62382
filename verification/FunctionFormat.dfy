/** A compiled function as bytes, and the reader of the loader that recovers it. */
module FunctionFormat {
  import opened ByteStrings
  import opened Results
  import opened ByteStream
  import opened LineInfo

  type Eight = b: Bytes | |b| == 8 witness [0, 0, 0, 0, 0, 0, 0, 0]
  type Four = b: Bytes | |b| == 4 witness [0, 0, 0, 0]

  /** Numbers are kept as the bytes they are stored in; a string is its index in the string table. */
  datatype Constant =
    | KNil
    | KBoolean(b: bool)
    | KNumber(bits: Eight)
    | KVector(x: Four, y: Four, z: Four, w: Four)
    | KString(index: uint32)
    | KImport(id: uint32)
    | KTable(keys: seq<uint32>)
    | KClosure(proto: uint32)

  datatype DebugLocal = DebugLocal(name: uint32, startpc: uint32, endpc: uint32, reg: byte)

  datatype Header = Header(maxstacksize: byte, numparams: byte, numupvalues: byte, isvararg: bool, flags: byte)

  datatype Function = Function(
    header: Header, typeinfo: Bytes, insns: seq<uint32>, constants: seq<Constant>, protos: seq<uint32>,
    lineDefined: uint32, debugName: uint32, lines: Lines, locals: seq<DebugLocal>, upvalues: seq<uint32>)

  const CONSTANT_NIL: byte := 0
  const CONSTANT_BOOLEAN: byte := 1
  const CONSTANT_NUMBER: byte := 2
  const CONSTANT_STRING: byte := 3
  const CONSTANT_IMPORT: byte := 4
  const CONSTANT_TABLE: byte := 5
  const CONSTANT_CLOSURE: byte := 6
  const CONSTANT_VECTOR: byte := 7

  // ----- small items -----

  function WriteBool(b: bool): Bytes {
    [if b then 1 else 0]
  }

  function WriteWord(v: uint32): Bytes {
    WriteInt(v)
  }

  function WriteIndex(v: uint32): Bytes {
    WriteVarInt(v)
  }

  function ReadIndex(data: Bytes): Reading<uint32> {
    var (v, rest) :- ReadVarInt(data);
    if v < TWO32 then Some((v, rest)) else None
  }

  lemma IndexReadsBack(v: uint32)
    ensures ReadsBack(ReadIndex, WriteIndex, v)
  {
    forall rest: Bytes
      ensures ReadIndex(WriteIndex(v) + rest) == Some((v, rest))
    {
      VarIntReadsBack(v, rest);
    }
  }

  lemma WordReadsBack(v: uint32)
    ensures ReadsBack(ReadInt, WriteWord, v)
  {
    forall rest: Bytes
      ensures ReadInt(WriteWord(v) + rest) == Some((v, rest))
    {
      IntReadsBack(v, rest);
    }
  }

  // ----- constants -----

  function WriteConstant(c: Constant): Bytes {
    match c
    case KNil => [CONSTANT_NIL]
    case KBoolean(b) => [CONSTANT_BOOLEAN] + WriteBool(b)
    case KNumber(bits) => [CONSTANT_NUMBER] + bits
    case KVector(x, y, z, w) => [CONSTANT_VECTOR] + (x + (y + (z + w)))
    case KString(i) => [CONSTANT_STRING] + WriteIndex(i)
    case KImport(id) => [CONSTANT_IMPORT] + WriteWord(id)
    case KTable(keys) => [CONSTANT_TABLE] + WriteList(WriteIndex, keys)
    case KClosure(p) => [CONSTANT_CLOSURE] + WriteIndex(p)
  }

  function ReadConstant(data: Bytes): Reading<Constant> {
    var (tag, r) :- ReadByte(data);
    if tag == CONSTANT_NIL then Some((KNil, r))
    else if tag == CONSTANT_BOOLEAN then
      var (b, r') :- ReadByte(r);
      Some((KBoolean(b != 0), r'))
    else if tag == CONSTANT_NUMBER then
      var (bits, r') :- ReadBytes(r, 8);
      Some((KNumber(bits), r'))
    else if tag == CONSTANT_VECTOR then
      var (x, r1) :- ReadBytes(r, 4);
      var (y, r2) :- ReadBytes(r1, 4);
      var (z, r3) :- ReadBytes(r2, 4);
      var (w, r4) :- ReadBytes(r3, 4);
      Some((KVector(x, y, z, w), r4))
    else if tag == CONSTANT_STRING then
      var (i, r') :- ReadIndex(r);
      Some((KString(i), r'))
    else if tag == CONSTANT_IMPORT then
      var (id, r') :- ReadInt(r);
      Some((KImport(id), r'))
    else if tag == CONSTANT_TABLE then
      var (keys, r') :- ReadList(ReadIndex, r);
      Some((KTable(keys), r'))
    else if tag == CONSTANT_CLOSURE then
      var (p, r') :- ReadIndex(r);
      Some((KClosure(p), r'))
    else None
  }

  lemma VectorReadsBack(x: Four, y: Four, z: Four, w: Four, rest: Bytes)
    ensures
      var data := (x + (y + (z + w))) + rest;
      && ReadBytes(data, 4) == Some((x, y + (z + w) + rest))
      && ReadBytes(y + (z + w) + rest, 4) == Some((y, z + w + rest))
      && ReadBytes(z + w + rest, 4) == Some((z, w + rest))
      && ReadBytes(w + rest, 4) == Some((w, rest))
  {
    assert (x + (y + (z + w))) + rest == x + (y + (z + w) + rest);
    assert y + (z + w) + rest == y + (z + w + rest);
    assert z + w + rest == z + (w + rest);
    BytesReadBack(x, y + (z + w) + rest);
    BytesReadBack(y, z + w + rest);
    BytesReadBack(z, w + rest);
    BytesReadBack(w, rest);
  }

  lemma ConstantReadsBackBefore(c: Constant, rest: Bytes)
    ensures ReadConstant(WriteConstant(c) + rest) == Some((c, rest))
  {
    var data := WriteConstant(c) + rest;
    match c
    case KNil => assert data[1..] == rest;
    case KBoolean(b) =>
      assert data[1..] == WriteBool(b) + rest;
      assert (WriteBool(b) + rest)[1..] == rest;
    case KNumber(bits) =>
      assert data[1..] == bits + rest;
      BytesReadBack(bits, rest);
    case KVector(x, y, z, w) =>
      assert data[1..] == (x + (y + (z + w))) + rest;
      VectorReadsBack(x, y, z, w, rest);
    case KString(i) =>
      assert data[1..] == WriteIndex(i) + rest;
      IndexReadsBack(i);
    case KImport(id) =>
      assert data[1..] == WriteWord(id) + rest;
      WordReadsBack(id);
    case KTable(keys) =>
      assert data[1..] == WriteList(WriteIndex, keys) + rest;
      IndexListReadsBack(keys, rest);
    case KClosure(p) =>
      assert data[1..] == WriteIndex(p) + rest;
      IndexReadsBack(p);
  }

  lemma ConstantReadsBack(c: Constant)
    ensures ReadsBack(ReadConstant, WriteConstant, c)
  {
    forall rest: Bytes
      ensures ReadConstant(WriteConstant(c) + rest) == Some((c, rest))
    {
      ConstantReadsBackBefore(c, rest);
    }
  }

  lemma IndexListReadsBack(xs: seq<uint32>, rest: Bytes)
    ensures ReadList(ReadIndex, WriteList(WriteIndex, xs) + rest) == Some((xs, rest))
  {
    forall x <- xs
      ensures ReadsBack(ReadIndex, WriteIndex, x)
    {
      IndexReadsBack(x);
    }
    ListReadsBack(ReadIndex, WriteIndex, xs, rest);
  }

  // ----- the parts of a function -----

  function WriteHeader(h: Header): Bytes {
    [h.maxstacksize, h.numparams, h.numupvalues, if h.isvararg then 1 else 0, h.flags]
  }

  function ReadHeader(data: Bytes): Reading<Header> {
    if |data| < 5 then None
    else Some((Header(data[0], data[1], data[2], data[3] != 0, data[4]), data[5..]))
  }

  function WriteTypes(types: Bytes): Bytes {
    WriteVarInt(|types|) + types
  }

  function ReadTypes(data: Bytes): Reading<Bytes> {
    var (n, r) :- ReadVarInt(data);
    ReadBytes(r, n)
  }

  /** A flag says whether there is line info; there is none if any line is unknown. */
  function WriteLines(lines: Lines, k: nat, baseline: Lines): Bytes
    requires 0 !in lines ==> Fits(lines, k, baseline) && k < 256
  {
    if 0 in lines then [0] else [1] + WriteLineInfo(lines, k, baseline)
  }

  function ReadLines(data: Bytes, n: nat): Reading<Lines>
    requires n > 0
  {
    var (flag, r) :- ReadByte(data);
    if flag == 0 then Some(([], r)) else ReadLineInfo(r, n)
  }

  function WriteLocal(l: DebugLocal): Bytes {
    WriteIndex(l.name) + (WriteIndex(l.startpc) + (WriteIndex(l.endpc) + [l.reg]))
  }

  function ReadLocal(data: Bytes): Reading<DebugLocal> {
    var (name, r1) :- ReadIndex(data);
    var (startpc, r2) :- ReadIndex(r1);
    var (endpc, r3) :- ReadIndex(r2);
    var (reg, r4) :- ReadByte(r3);
    Some((DebugLocal(name, startpc, endpc, reg), r4))
  }

  function WriteDebug(locals: seq<DebugLocal>, upvalues: seq<uint32>): Bytes {
    if locals == [] && upvalues == [] then [0]
    else [1] + (WriteList(WriteLocal, locals) + WriteList(WriteIndex, upvalues))
  }

  function ReadDebug(data: Bytes): Reading<(seq<DebugLocal>, seq<uint32>)> {
    var (flag, r) :- ReadByte(data);
    if flag == 0 then Some((([], []), r)) else
      var (locals, r1) :- ReadList(ReadLocal, r);
      var (upvalues, r2) :- ReadList(ReadIndex, r1);
      Some(((locals, upvalues), r2))
  }

  lemma TypesReadBack(types: Bytes, rest: Bytes)
    ensures ReadTypes(WriteTypes(types) + rest) == Some((types, rest))
  {
    assert WriteTypes(types) + rest == WriteVarInt(|types|) + (types + rest);
    VarIntReadsBack(|types|, types + rest);
    BytesReadBack(types, rest);
  }

  lemma LinesReadBack(lines: Lines, k: nat, baseline: Lines, rest: Bytes)
    requires |lines| > 0 && (0 !in lines ==> Fits(lines, k, baseline) && k < 256 && InRange(baseline))
    ensures ReadLines(WriteLines(lines, k, baseline) + rest, |lines|) == Some((if 0 in lines then [] else lines, rest))
  {
    if 0 in lines {
      Flagged(0, [], rest);
      assert [0] + [] == [0];
    } else {
      var info := WriteLineInfo(lines, k, baseline);
      Flagged(1, info, rest);
      LineInfoRoundTrip(lines, k, baseline, rest);
      assert ReadLines([1] + info + rest, |lines|) == ReadLineInfo(info + rest, |lines|);
    }
  }

  lemma Flagged(flag: byte, body: Bytes, rest: Bytes)
    ensures ReadByte([flag] + body + rest) == Some((flag, body + rest))
  {
    assert ([flag] + body + rest)[1..] == body + rest;
  }

  lemma LocalReadsBack(l: DebugLocal)
    ensures ReadsBack(ReadLocal, WriteLocal, l)
  {
    forall rest: Bytes
      ensures ReadLocal(WriteLocal(l) + rest) == Some((l, rest))
    {
      var d := [l.reg] + rest;
      var c := WriteIndex(l.endpc) + d;
      var b := WriteIndex(l.startpc) + c;
      assert WriteLocal(l) + rest == WriteIndex(l.name) + b;
      IndexReadsBack(l.name);
      IndexReadsBack(l.startpc);
      IndexReadsBack(l.endpc);
      ByteReadsBack(l.reg, rest);
    }
  }

  lemma DebugReadsBack(locals: seq<DebugLocal>, upvalues: seq<uint32>, rest: Bytes)
    ensures ReadDebug(WriteDebug(locals, upvalues) + rest) == Some(((locals, upvalues), rest))
  {
    if locals == [] && upvalues == [] {
      Flagged(0, [], rest);
      assert [0] + [] == [0];
    } else {
      var first, second := WriteList(WriteLocal, locals), WriteList(WriteIndex, upvalues);
      Flagged(1, first + second, rest);
      assert first + second + rest == first + (second + rest);
      LocalsReadBack(locals, second + rest);
      IndexListReadsBack(upvalues, rest);
    }
  }

  lemma LocalsReadBack(locals: seq<DebugLocal>, rest: Bytes)
    ensures ReadList(ReadLocal, WriteList(WriteLocal, locals) + rest) == Some((locals, rest))
  {
    forall l <- locals
      ensures ReadsBack(ReadLocal, WriteLocal, l)
    {
      LocalReadsBack(l);
    }
    ListReadsBack(ReadLocal, WriteLocal, locals, rest);
  }

  // ----- the whole function -----

  function WriteCode(f: Function): Bytes {
    WriteList(WriteWord, f.insns) + (WriteList(WriteConstant, f.constants) + WriteList(WriteIndex, f.protos))
  }

  function WriteInfo(f: Function, k: nat, baseline: Lines): Bytes
    requires 0 !in f.lines ==> Fits(f.lines, k, baseline) && k < 256
  {
    WriteIndex(f.lineDefined) + (WriteIndex(f.debugName) + (WriteLines(f.lines, k, baseline) + WriteDebug(f.locals, f.upvalues)))
  }

  function WriteFunction(f: Function, k: nat, baseline: Lines): Bytes
    requires 0 !in f.lines ==> Fits(f.lines, k, baseline) && k < 256
  {
    WriteHeader(f.header) + (WriteTypes(f.typeinfo) + (WriteCode(f) + WriteInfo(f, k, baseline)))
  }

  function ReadCode(data: Bytes): Reading<(seq<uint32>, seq<Constant>, seq<uint32>)> {
    var (insns, r1) :- ReadList(ReadInt, data);
    var (constants, r2) :- ReadList(ReadConstant, r1);
    var (protos, r3) :- ReadList(ReadIndex, r2);
    Some(((insns, constants, protos), r3))
  }

  function ReadInfo(data: Bytes, n: nat): Reading<(uint32, uint32, Lines, (seq<DebugLocal>, seq<uint32>))>
    requires n > 0
  {
    var (lineDefined, r1) :- ReadIndex(data);
    var (debugName, r2) :- ReadIndex(r1);
    var (lines, r3) :- ReadLines(r2, n);
    var (debug, r4) :- ReadDebug(r3);
    Some(((lineDefined, debugName, lines, debug), r4))
  }

  function ReadFunction(data: Bytes): Reading<Function> {
    var (header, r1) :- ReadHeader(data);
    var (types, r2) :- ReadTypes(r1);
    var (code, r3) :- ReadCode(r2);
    if code.0 == [] then None else
      var (info, r4) :- ReadInfo(r3, |code.0|);
      Some((Function(header, types, code.0, code.1, code.2, info.0, info.1, info.2, info.3.0, info.3.1), r4))
  }

  lemma CodeReadsBack(f: Function, rest: Bytes)
    ensures ReadCode(WriteCode(f) + rest) == Some(((f.insns, f.constants, f.protos), rest))
  {
    var b := WriteList(WriteIndex, f.protos) + rest;
    var a := WriteList(WriteConstant, f.constants) + b;
    assert WriteCode(f) + rest == WriteList(WriteWord, f.insns) + a;
    forall x <- f.insns
      ensures ReadsBack(ReadInt, WriteWord, x)
    {
      WordReadsBack(x);
    }
    ListReadsBack(ReadInt, WriteWord, f.insns, a);
    forall x <- f.constants
      ensures ReadsBack(ReadConstant, WriteConstant, x)
    {
      ConstantReadsBack(x);
    }
    ListReadsBack(ReadConstant, WriteConstant, f.constants, b);
    IndexListReadsBack(f.protos, rest);
  }

  ghost predicate Writable(f: Function, k: nat, baseline: Lines) {
    && |f.insns| == |f.lines| > 0
    && (0 !in f.lines ==> Fits(f.lines, k, baseline) && k < 256 && InRange(baseline))
  }

  lemma InfoReadsBack(f: Function, k: nat, baseline: Lines, rest: Bytes)
    requires Writable(f, k, baseline)
    ensures ReadInfo(WriteInfo(f, k, baseline) + rest, |f.lines|) ==
            Some(((f.lineDefined, f.debugName, if 0 in f.lines then [] else f.lines, (f.locals, f.upvalues)), rest))
  {
    var c := WriteDebug(f.locals, f.upvalues) + rest;
    var b := WriteLines(f.lines, k, baseline) + c;
    var a := WriteIndex(f.debugName) + b;
    assert WriteInfo(f, k, baseline) + rest == WriteIndex(f.lineDefined) + a;
    IndexReadsBack(f.lineDefined);
    IndexReadsBack(f.debugName);
    LinesReadBack(f.lines, k, baseline, c);
    DebugReadsBack(f.locals, f.upvalues, rest);
  }

  /** What the loader gets: everything, except that lines are all or none. */
  function Loaded(f: Function): Function {
    f.(lines := if 0 in f.lines then [] else f.lines)
  }

  /** Instructions, constants, children and debug info survive, and what follows is left alone. */
  lemma FunctionRoundTrip(f: Function, k: nat, baseline: Lines, rest: Bytes)
    requires Writable(f, k, baseline)
    ensures ReadFunction(WriteFunction(f, k, baseline) + rest) == Some((Loaded(f), rest))
  {
    var c := WriteInfo(f, k, baseline) + rest;
    var b := WriteCode(f) + c;
    var a := WriteTypes(f.typeinfo) + b;
    var data := WriteFunction(f, k, baseline) + rest;
    assert data == WriteHeader(f.header) + a;
    assert data[5..] == a;
    TypesReadBack(f.typeinfo, b);
    CodeReadsBack(f, c);
    InfoReadsBack(f, k, baseline, rest);
  }
}
