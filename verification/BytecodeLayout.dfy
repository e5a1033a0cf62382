/** The bytecode format as a table: which fields a function has in which order, and what the bytes of a field are. */
module BytecodeLayout {
  import opened ByteStrings
  import opened PowersOfTwo
  import Sequences
  import opened ByteStream
  import opened LineInfo
  import opened FunctionFormat
  import opened BytecodeFile

  datatype Field = Byte(b: byte) | Word(v: int) | VarInt(n: nat) | Raw(data: Bytes)

  function FieldBytes(f: Field): Bytes {
    match f
    case Byte(b) => [b]
    case Word(v) => WriteInt(v)
    case VarInt(n) => WriteVarInt(n)
    case Raw(data) => data
  }

  function Laid(fields: seq<Field>): Bytes {
    if fields == [] then [] else FieldBytes(fields[0]) + Laid(fields[1..])
  }

  // ----- what the bytes of a number are -----

  /** A word has its eight lowest bits first, a negative one those of its two's complement. */
  lemma WordBytes(v: int, i: nat)
    requires i < 4
    ensures WriteInt(v)[i] == v / Pow2(8 * i) % 256
  {
    assert Pow2(0) == 1 && Pow2(8) == 256;
    PowSplit(8, 8);
    PowSplit(16, 8);
    match i
    case 0 =>
    case 1 =>
    case 2 => DivProduct(v, 256, 256);
    case 3 =>
      DivProduct(v, 256, 0x1_0000);
      DivProduct(v / 256, 256, 256);
  }

  /** Seven bits in each byte, the lowest first; the top bit says that more follows, and no byte is wasted. */
  lemma {:induction false} VarIntBytes(v: nat, i: nat)
    requires i < |WriteVarInt(v)|
    ensures WriteVarInt(v)[i] % 128 == v / Pow2(7 * i) % 128
    ensures WriteVarInt(v)[i] >= 128 <==> i + 1 < |WriteVarInt(v)|
    decreases i
  {
    if i == 0 {
      assert Pow2(0) == 1;
    } else {
      VarIntBytes(v / 128, i - 1);
      assert 7 * i == 7 + 7 * (i - 1);
      SevenDown(v, 7 * (i - 1));
    }
  }

  lemma SevenDown(v: nat, k: nat)
    ensures v / Pow2(7 + k) == v / 128 / Pow2(k)
  {
    assert Pow2(7) == 128;
    PowSplit(7, k);
    DivProduct(v, 128, Pow2(k));
  }

  lemma {:induction false} VarIntSize(v: nat)
    ensures v < Pow2(7 * |WriteVarInt(v)|)
    ensures |WriteVarInt(v)| > 1 ==> v >= Pow2(7 * (|WriteVarInt(v)| - 1))
    decreases v
  {
    var n := |WriteVarInt(v)|;
    assert Pow2(7) == 128;
    if v >= 128 {
      VarIntSize(v / 128);
      PowSplit(7, 7 * (n - 1));
      assert 7 * n == 7 + 7 * (n - 1);
      if n > 2 {
        PowSplit(7, 7 * (n - 2));
        assert 7 * (n - 1) == 7 + 7 * (n - 2);
      }
    }
  }

  // ----- line info -----

  lemma ShrDivides(i: nat, k: nat)
    ensures Shr(i, k) == i / Pow2(k)
  {
    ShrBounds(i, k);
    var q := Shr(i, k);
    assert (q + 1) * Pow2(k) == q * Pow2(k) + Pow2(k);
    DivOf(i, Pow2(k), q, i - q * Pow2(k));
  }

  lemma {:induction false} DeltaBytes(ds: seq<byte>, last: byte, i: nat)
    requires i < |ds|
    ensures |WriteDeltas(ds, last)| == |ds|
    ensures WriteDeltas(ds, last)[i] == (ds[i] as int - (if i == 0 then last else ds[i - 1]) as int) % 256
    decreases |ds|
  {
    if i > 0 {
      DeltaBytes(ds[1..], ds[0], i - 1);
    } else if |ds| > 1 {
      DeltaBytes(ds[1..], ds[0], 0);
    }
  }

  /** How far a line lies above the baseline of its window. */
  function Above(lines: Lines, k: nat, baseline: Lines, i: nat): int
    requires Fits(lines, k, baseline) && i < |lines|
  {
    ShrDivides(i, k);
    lines[i] - baseline[i / Pow2(k)]
  }

  /** First the size of the windows, then a byte for each instruction: what changed in how far it lies above. */
  lemma LineBytes(lines: Lines, k: nat, baseline: Lines, i: nat)
    requires Fits(lines, k, baseline) && k < 256 && i < |lines|
    ensures
      var data := WriteLineInfo(lines, k, baseline);
      && |data| > 1 + i && data[0] == k
      && data[1 + i] == (Above(lines, k, baseline, i) - if i == 0 then 0 else Above(lines, k, baseline, i - 1)) % 256
  {
    DeltaBytes(Deltas(lines, k, baseline), 0, i);
    ShrDivides(i, k);
    if i > 0 {
      ShrDivides(i - 1, k);
    }
  }

  function Differences(bs: Lines, last: int): seq<Field> {
    if bs == [] then [] else [Word(bs[0] - last)] + Differences(bs[1..], bs[0])
  }

  lemma {:induction false} BaselinesLaid(bs: Lines, last: int)
    ensures WriteBaselines(bs, last) == Laid(Differences(bs, last))
    decreases |bs|
  {
    if bs != [] {
      BaselinesLaid(bs[1..], bs[0]);
      assert Differences(bs, last)[1..] == Differences(bs[1..], bs[0]);
    }
  }

  /** At last a word for each window: what changed in its baseline. */
  lemma BaselineBytes(lines: Lines, k: nat, baseline: Lines)
    requires Fits(lines, k, baseline) && k < 256
    ensures
      var data := WriteLineInfo(lines, k, baseline);
      |data| >= 1 + |lines| && data[1 + |lines|..] == Laid(Differences(baseline, 0))
  {
    DeltaBytes(Deltas(lines, k, baseline), 0, 0);
    BaselinesLaid(baseline, 0);
  }

  // ----- functions -----

  function Flag(b: bool): Field {
    Byte(if b then 1 else 0)
  }

  function Each<T>(layout: T -> seq<Field>, items: seq<T>): seq<Field> {
    if items == [] then [] else layout(items[0]) + Each(layout, items[1..])
  }

  /** The number of items, and their fields. */
  function Counted<T>(layout: T -> seq<Field>, items: seq<T>): seq<Field> {
    [VarInt(|items|)] + Each(layout, items)
  }

  function WordField(v: uint32): seq<Field> { [Word(v)] }

  function IndexField(v: uint32): seq<Field> { [VarInt(v)] }

  function ConstantFields(c: Constant): seq<Field> {
    match c
    case KNil => [Byte(0)]
    case KBoolean(b) => [Byte(1), Flag(b)]
    case KNumber(bits) => [Byte(2), Raw(bits)]
    case KString(i) => [Byte(3), VarInt(i)]
    case KImport(id) => [Byte(4), Word(id)]
    case KTable(keys) => [Byte(5)] + Counted(IndexField, keys)
    case KClosure(p) => [Byte(6), VarInt(p)]
    case KVector(x, y, z, w) => [Byte(7), Raw(x), Raw(y), Raw(z), Raw(w)]
  }

  function LocalFields(l: DebugLocal): seq<Field> {
    [VarInt(l.name), VarInt(l.startpc), VarInt(l.endpc), Byte(l.reg)]
  }

  function HeaderFields(h: Header): seq<Field> {
    [Byte(h.maxstacksize), Byte(h.numparams), Byte(h.numupvalues), Flag(h.isvararg), Byte(h.flags)]
  }

  function CodeFields(f: Function): seq<Field> {
    Counted(WordField, f.insns) + Counted(ConstantFields, f.constants) + Counted(IndexField, f.protos)
  }

  function LineFields(lines: Lines, k: nat, baseline: Lines): seq<Field>
    requires 0 !in lines ==> Fits(lines, k, baseline) && k < 256
  {
    if 0 in lines then [Byte(0)] else [Byte(1), Raw(WriteLineInfo(lines, k, baseline))]
  }

  function DebugFields(f: Function): seq<Field> {
    if f.locals == [] && f.upvalues == [] then [Byte(0)]
    else [Byte(1)] + Counted(LocalFields, f.locals) + Counted(IndexField, f.upvalues)
  }

  function InfoFields(f: Function, k: nat, baseline: Lines): seq<Field>
    requires 0 !in f.lines ==> Fits(f.lines, k, baseline) && k < 256
  {
    [VarInt(f.lineDefined), VarInt(f.debugName)] + LineFields(f.lines, k, baseline) + DebugFields(f)
  }

  function FunctionFields(f: Function, k: nat, baseline: Lines): seq<Field>
    requires 0 !in f.lines ==> Fits(f.lines, k, baseline) && k < 256
  {
    HeaderFields(f.header) + BlobFields(f.typeinfo) + CodeFields(f) + InfoFields(f, k, baseline)
  }

  // ----- the file -----

  function BlobFields(data: Bytes): seq<Field> {
    [VarInt(|data|), Raw(data)]
  }

  /** Two versions, the strings, the functions with their number in front, and the number of the main one. */
  function FileFields(strings: seq<Bytes>, blobs: seq<Bytes>, main: uint32): seq<Field> {
    [Byte(5), Byte(1)] + Counted(BlobFields, strings) + ([VarInt(|blobs|), Raw(Joined(blobs))] + [VarInt(main)])
  }

  // ----- the writer follows the table -----

  lemma {:induction false} LaidAppend(a: seq<Field>, b: seq<Field>)
    ensures Laid(a + b) == Laid(a) + Laid(b)
    decreases |a|
  {
    if a == [] {
      assert a + b == b;
    } else {
      assert (a + b)[1..] == a[1..] + b;
      LaidAppend(a[1..], b);
    }
  }

  lemma LaidOne(f: Field)
    ensures Laid([f]) == FieldBytes(f)
  {
    assert Laid([f][1..]) == [];
  }

  lemma LaidTwo(f: Field, g: Field)
    ensures Laid([f, g]) == FieldBytes(f) + FieldBytes(g)
  {
    assert [f, g] == [f] + [g];
    LaidAppend([f], [g]);
    LaidOne(f);
    LaidOne(g);
  }

  lemma LaidThree(a: seq<Field>, b: seq<Field>, c: seq<Field>)
    ensures Laid(a + b + c) == Laid(a) + (Laid(b) + Laid(c))
  {
    LaidAppend(a, b);
    LaidAppend(a + b, c);
    Sequences.Assoc(Laid(a), Laid(b), Laid(c));
  }

  lemma LaidFour(a: seq<Field>, b: seq<Field>, c: seq<Field>, d: seq<Field>)
    ensures Laid(a + b + c + d) == Laid(a) + (Laid(b) + (Laid(c) + Laid(d)))
  {
    LaidThree(a, b, c);
    LaidAppend(a + b + c, d);
    Sequences.Assoc(Laid(a), Laid(b) + Laid(c), Laid(d));
    Sequences.Assoc(Laid(b), Laid(c), Laid(d));
  }

  lemma {:induction false} EachLaid<T>(write: T -> Bytes, layout: T -> seq<Field>, items: seq<T>)
    requires forall x <- items :: write(x) == Laid(layout(x))
    ensures WriteItems(write, items) == Laid(Each(layout, items))
    decreases |items|
  {
    if items != [] {
      assert items[0] in items && forall x <- items[1..] :: x in items;
      EachLaid(write, layout, items[1..]);
      LaidAppend(layout(items[0]), Each(layout, items[1..]));
    }
  }

  lemma CountedLaid<T>(write: T -> Bytes, layout: T -> seq<Field>, items: seq<T>)
    requires forall x <- items :: write(x) == Laid(layout(x))
    ensures WriteList(write, items) == Laid(Counted(layout, items))
  {
    EachLaid(write, layout, items);
    LaidAppend([VarInt(|items|)], Each(layout, items));
    LaidOne(VarInt(|items|));
  }

  lemma IndexesLaid(xs: seq<uint32>)
    ensures WriteList(WriteIndex, xs) == Laid(Counted(IndexField, xs))
  {
    forall x <- xs
      ensures WriteIndex(x) == Laid(IndexField(x))
    {
      LaidOne(VarInt(x));
    }
    CountedLaid(WriteIndex, IndexField, xs);
  }

  lemma WordsLaid(xs: seq<uint32>)
    ensures WriteList(WriteWord, xs) == Laid(Counted(WordField, xs))
  {
    forall x <- xs
      ensures WriteWord(x) == Laid(WordField(x))
    {
      LaidOne(Word(x));
    }
    CountedLaid(WriteWord, WordField, xs);
  }

  lemma VectorLaid(x: Four, y: Four, z: Four, w: Four)
    ensures Laid([Raw(x), Raw(y), Raw(z), Raw(w)]) == x + (y + (z + w))
  {
    LaidTwo(Raw(z), Raw(w));
    LaidAppend([Raw(y)], [Raw(z), Raw(w)]);
    LaidAppend([Raw(x)], [Raw(y), Raw(z), Raw(w)]);
    LaidOne(Raw(x));
    LaidOne(Raw(y));
    assert [Raw(y)] + [Raw(z), Raw(w)] == [Raw(y), Raw(z), Raw(w)];
    assert [Raw(x)] + [Raw(y), Raw(z), Raw(w)] == [Raw(x), Raw(y), Raw(z), Raw(w)];
  }

  /** A constant has its tag and then what the tag calls for. */
  lemma ConstantLaid(c: Constant)
    ensures WriteConstant(c) == Laid(ConstantFields(c))
  {
    match c
    case KNil => LaidOne(Byte(0));
    case KBoolean(b) => LaidTwo(Byte(1), Flag(b));
    case KNumber(bits) => LaidTwo(Byte(2), Raw(bits));
    case KString(i) => LaidTwo(Byte(3), VarInt(i));
    case KImport(id) => LaidTwo(Byte(4), Word(id));
    case KTable(keys) =>
      IndexesLaid(keys);
      LaidOne(Byte(5));
      LaidAppend([Byte(5)], Counted(IndexField, keys));
    case KClosure(p) => LaidTwo(Byte(6), VarInt(p));
    case KVector(x, y, z, w) =>
      VectorLaid(x, y, z, w);
      LaidOne(Byte(7));
      LaidAppend([Byte(7)], [Raw(x), Raw(y), Raw(z), Raw(w)]);
      assert [Byte(7)] + [Raw(x), Raw(y), Raw(z), Raw(w)] == [Byte(7), Raw(x), Raw(y), Raw(z), Raw(w)];
  }

  lemma LocalLaid(l: DebugLocal)
    ensures WriteLocal(l) == Laid(LocalFields(l))
  {
    LaidTwo(VarInt(l.endpc), Byte(l.reg));
    LaidTwo(VarInt(l.name), VarInt(l.startpc));
    LaidAppend([VarInt(l.name), VarInt(l.startpc)], [VarInt(l.endpc), Byte(l.reg)]);
    assert LocalFields(l) == [VarInt(l.name), VarInt(l.startpc)] + [VarInt(l.endpc), Byte(l.reg)];
  }

  lemma HeaderLaid(h: Header)
    ensures WriteHeader(h) == Laid(HeaderFields(h))
  {
    LaidTwo(Byte(h.maxstacksize), Byte(h.numparams));
    LaidTwo(Flag(h.isvararg), Byte(h.flags));
    LaidOne(Byte(h.numupvalues));
    var a, b, c := [Byte(h.maxstacksize), Byte(h.numparams)], [Byte(h.numupvalues)], [Flag(h.isvararg), Byte(h.flags)];
    LaidAppend(a, b);
    LaidAppend(a + b, c);
    assert HeaderFields(h) == a + b + c;
  }

  lemma ConstantsLaid(cs: seq<Constant>)
    ensures WriteList(WriteConstant, cs) == Laid(Counted(ConstantFields, cs))
  {
    forall c <- cs
      ensures WriteConstant(c) == Laid(ConstantFields(c))
    {
      ConstantLaid(c);
    }
    CountedLaid(WriteConstant, ConstantFields, cs);
  }

  lemma LocalsLaid(ls: seq<DebugLocal>)
    ensures WriteList(WriteLocal, ls) == Laid(Counted(LocalFields, ls))
  {
    forall l <- ls
      ensures WriteLocal(l) == Laid(LocalFields(l))
    {
      LocalLaid(l);
    }
    CountedLaid(WriteLocal, LocalFields, ls);
  }

  lemma CodeLaid(f: Function)
    ensures WriteCode(f) == Laid(CodeFields(f))
  {
    WordsLaid(f.insns);
    ConstantsLaid(f.constants);
    IndexesLaid(f.protos);
    LaidThree(Counted(WordField, f.insns), Counted(ConstantFields, f.constants), Counted(IndexField, f.protos));
  }

  lemma DebugLaid(f: Function)
    ensures WriteDebug(f.locals, f.upvalues) == Laid(DebugFields(f))
  {
    if f.locals == [] && f.upvalues == [] {
      LaidOne(Byte(0));
    } else {
      LocalsLaid(f.locals);
      IndexesLaid(f.upvalues);
      LaidOne(Byte(1));
      LaidThree([Byte(1)], Counted(LocalFields, f.locals), Counted(IndexField, f.upvalues));
    }
  }

  lemma InfoLaid(f: Function, k: nat, baseline: Lines)
    requires 0 !in f.lines ==> Fits(f.lines, k, baseline) && k < 256
    ensures WriteInfo(f, k, baseline) == Laid(InfoFields(f, k, baseline))
  {
    var a, b, c := [VarInt(f.lineDefined), VarInt(f.debugName)], LineFields(f.lines, k, baseline), DebugFields(f);
    LaidTwo(VarInt(f.lineDefined), VarInt(f.debugName));
    DebugLaid(f);
    if 0 in f.lines {
      LaidOne(Byte(0));
    } else {
      LaidTwo(Byte(1), Raw(WriteLineInfo(f.lines, k, baseline)));
    }
    LaidThree(a, b, c);
    Sequences.Assoc(WriteIndex(f.lineDefined), WriteIndex(f.debugName), Laid(b) + Laid(c));
  }

  /** A function is written field by field in the order of the table. */
  lemma FunctionLaid(f: Function, k: nat, baseline: Lines)
    requires 0 !in f.lines ==> Fits(f.lines, k, baseline) && k < 256
    ensures WriteFunction(f, k, baseline) == Laid(FunctionFields(f, k, baseline))
  {
    HeaderLaid(f.header);
    LaidTwo(VarInt(|f.typeinfo|), Raw(f.typeinfo));
    CodeLaid(f);
    InfoLaid(f, k, baseline);
    LaidFour(HeaderFields(f.header), BlobFields(f.typeinfo), CodeFields(f), InfoFields(f, k, baseline));
  }

  lemma StringsLaid(strings: seq<Bytes>)
    ensures WriteList(WriteTypes, strings) == Laid(Counted(BlobFields, strings))
  {
    forall s <- strings
      ensures WriteTypes(s) == Laid(BlobFields(s))
    {
      LaidTwo(VarInt(|s|), Raw(s));
    }
    CountedLaid(WriteTypes, BlobFields, strings);
  }

  lemma FileLaid(strings: seq<Bytes>, blobs: seq<Bytes>, main: uint32)
    ensures WriteFile(strings, blobs, main) == Laid(FileFields(strings, blobs, main))
  {
    var program := [VarInt(|blobs|), Raw(Joined(blobs))];
    LaidTwo(Byte(5), Byte(1));
    StringsLaid(strings);
    LaidTwo(VarInt(|blobs|), Raw(Joined(blobs)));
    LaidOne(VarInt(main));
    LaidAppend(program, [VarInt(main)]);
    LaidThree([Byte(5), Byte(1)], Counted(BlobFields, strings), program + [VarInt(main)]);
  }
}
