/** The whole bytecode: interned strings, functions, and which function is the main one. */
module BytecodeFile {
  import opened ByteStrings
  import opened Sequences
  import opened Results
  import opened ByteStream
  import opened LineInfo
  import opened FunctionFormat
  import F = FunctionFormat

  const VERSION: byte := 5
  const TYPE_VERSION: byte := 1

  /** What the loader makes of a file. */
  datatype File = File(strings: seq<Bytes>, functions: seq<Function>, main: uint32)

  function ReadFile(data: Bytes): Reading<File> {
    var ((strings, functions, main), rest) :- ReadParts(ReadFunction, data);
    Some((File(strings, functions, main), rest))
  }

  /** The layout of a file, whatever its functions are. */
  function ReadParts<T>(read: Bytes -> Reading<T>, data: Bytes): Reading<(seq<Bytes>, seq<T>, uint32)> {
    var (version, r1) :- ReadByte(data);
    if version != VERSION then None else
      var (types, r2) :- ReadByte(r1);
      if types != TYPE_VERSION then None else
        var (strings, r3) :- ReadList(ReadTypes, r2);
        var ((functions, main), r4) :- ReadProgram(read, r3);
        Some(((strings, functions, main), r4))
  }

  function ReadProgram<T>(read: Bytes -> Reading<T>, data: Bytes): Reading<(seq<T>, uint32)> {
    var (functions, r1) :- ReadList(read, data);
    var (main, r2) :- ReadIndex(r1);
    Some(((functions, main), r2))
  }

  // ----- the file -----

  lemma StringsReadBack(strings: seq<Bytes>, rest: Bytes)
    ensures ReadList(ReadTypes, WriteList(WriteTypes, strings) + rest) == Some((strings, rest))
  {
    forall s <- strings
      ensures ReadsBack(ReadTypes, WriteTypes, s)
    {
      forall rest: Bytes
        ensures ReadTypes(WriteTypes(s) + rest) == Some((s, rest))
      {
        TypesReadBack(s, rest);
      }
    }
    ListReadsBack(ReadTypes, WriteTypes, strings, rest);
  }

  function WriteFile(strings: seq<Bytes>, blobs: seq<Bytes>, main: uint32): Bytes {
    [VERSION] + ([TYPE_VERSION] + (WriteList(WriteTypes, strings) + ((WriteVarInt(|blobs|) + Joined(blobs)) + WriteIndex(main))))
  }

  lemma ProgramReadsBack<T>(read: Bytes -> Reading<T>, blobs: seq<Bytes>, xs: seq<T>, main: uint32, rest: Bytes)
    requires AllHold(read, blobs, xs)
    ensures ReadProgram(read, (WriteVarInt(|blobs|) + Joined(blobs)) + WriteIndex(main) + rest) == Some(((xs, main), rest))
  {
    var d := WriteIndex(main) + rest;
    assert (WriteVarInt(|blobs|) + Joined(blobs)) + WriteIndex(main) + rest == WriteVarInt(|blobs|) + (Joined(blobs) + d);
    AllHoldLength(read, blobs, xs);
    VarIntReadsBack(|blobs|, Joined(blobs) + d);
    BlobsReadBack(read, blobs, xs, d);
    IndexReadsBack(main);
  }

  lemma PartsReadBack<T>(read: Bytes -> Reading<T>, strings: seq<Bytes>, blobs: seq<Bytes>, xs: seq<T>, main: uint32, rest: Bytes)
    requires AllHold(read, blobs, xs)
    ensures ReadParts(read, WriteFile(strings, blobs, main) + rest) == Some(((strings, xs, main), rest))
  {
    var c := (WriteVarInt(|blobs|) + Joined(blobs)) + WriteIndex(main) + rest;
    var b := WriteList(WriteTypes, strings) + c;
    assert WriteFile(strings, blobs, main) + rest == [VERSION] + ([TYPE_VERSION] + b);
    ByteReadsBack(VERSION, [TYPE_VERSION] + b);
    ByteReadsBack(TYPE_VERSION, b);
    StringsReadBack(strings, c);
    ProgramReadsBack(read, blobs, xs, main, rest);
  }

  /** Strings, functions and the main function survive, whatever follows. */
  lemma FileRoundTrip(strings: seq<Bytes>, blobs: seq<Bytes>, fs: seq<Function>, main: uint32, rest: Bytes)
    requires AllHold(ReadFunction, blobs, fs)
    ensures ReadFile(WriteFile(strings, blobs, main) + rest) == Some((File(strings, fs, main), rest))
  {
    PartsReadBack(ReadFunction, strings, blobs, fs, main, rest);
  }

  // ----- counting strings -----

  function Members(ss: seq<Bytes>): set<Bytes> {
    if ss == [] then {} else Members(ss[..|ss| - 1]) + {ss[|ss| - 1]}
  }

  lemma {:induction false} MembersOf(ss: seq<Bytes>, s: Bytes)
    ensures s in Members(ss) <==> s in ss
    decreases |ss|
  {
    if ss != [] {
      MembersOf(ss[..|ss| - 1], s);
      assert ss == ss[..|ss| - 1] + [ss[|ss| - 1]];
    }
  }

  lemma {:induction false} Distinct(ss: seq<Bytes>)
    requires forall i, j :: 0 <= i < j < |ss| ==> ss[i] != ss[j]
    ensures |Members(ss)| == |ss|
    decreases |ss|
  {
    if ss != [] {
      var n := |ss| - 1;
      Distinct(ss[..n]);
      MembersOf(ss[..n], ss[n]);
    }
  }

  // ----- the string table -----

  /** Ids are dense and start at one; every string has exactly one. */
  ghost predicate IsInterned(table: map<Bytes, nat>, strings: seq<Bytes>) {
    && (forall i: nat :: i < |strings| ==> strings[i] in table && table[strings[i]] == i + 1)
    && (forall s <- table :: 0 < table[s] <= |strings| && strings[table[s] - 1] == s)
  }

  lemma TableSize(table: map<Bytes, nat>, strings: seq<Bytes>)
    requires IsInterned(table, strings)
    ensures |table| == |strings|
  {
    assert forall i, j :: 0 <= i < j < |strings| ==> strings[i] != strings[j];
    Distinct(strings);
    assert table.Keys == Members(strings) by {
      forall s
        ensures s in table.Keys <==> s in Members(strings)
      {
        MembersOf(strings, s);
        if s in table {
          assert strings[table[s] - 1] == s;
        }
      }
    }
  }

  lemma AddsString(table: map<Bytes, nat>, strings: seq<Bytes>, value: Bytes)
    requires IsInterned(table, strings) && value !in table
    ensures IsInterned(table[value := |strings| + 1], strings + [value]) && value !in strings
  {
    var t, ss := table[value := |strings| + 1], strings + [value];
    forall s <- t
      ensures 0 < t[s] <= |ss| && ss[t[s] - 1] == s
    {
      if s != value {
        assert strings[table[s] - 1] == s;
      }
    }
  }

  /** A string has no second id. */
  lemma OneId(table: map<Bytes, nat>, strings: seq<Bytes>, value: Bytes)
    requires IsInterned(table, strings) && value in table
    ensures value in strings
    ensures forall i: nat :: i < |strings| ==> (strings[i] == value <==> i == table[value] - 1)
  {
    assert strings[table[value] - 1] == value;
  }

  // ----- appending -----

  /** Seven bits at a time; at least one byte. */
  method AppendVarInt(ss: Bytes, value: nat) returns (r: Bytes)
    ensures r == ss + WriteVarInt(value)
  {
    var v := value;
    r := ss;
    while v > 127
      invariant r + WriteVarInt(v) == ss + WriteVarInt(value)
    {
      assert WriteVarInt(v) == [v % 128 + 128] + WriteVarInt(v / 128);
      assert r + [v % 128 + 128] + WriteVarInt(v / 128) == r + WriteVarInt(v);
      r := r + [v % 128 + 128];
      v := v / 128;
    }
    assert WriteVarInt(v) == [v];
    r := r + [v];
  }

  lemma {:induction false} WriteItemsSnoc<T>(write: T -> Bytes, items: seq<T>, x: T)
    ensures WriteItems(write, items + [x]) == WriteItems(write, items) + write(x)
    decreases |items|
  {
    if items == [] {
      assert [x][1..] == [];
    } else {
      assert (items + [x])[1..] == items[1..] + [x];
      WriteItemsSnoc(write, items[1..], x);
    }
  }

  method AppendItems<T>(ss: Bytes, write: T -> Bytes, items: seq<T>) returns (r: Bytes)
    ensures r == ss + WriteItems(write, items)
  {
    r := ss;
    for i := 0 to |items|
      invariant r == ss + WriteItems(write, items[..i])
    {
      WriteItemsSnoc(write, items[..i], items[i]);
      assert items[..i + 1] == items[..i] + [items[i]];
      r := r + write(items[i]);
    }
    assert items[..|items|] == items;
  }

  method AppendList<T>(ss: Bytes, write: T -> Bytes, items: seq<T>) returns (r: Bytes)
    ensures r == ss + WriteList(write, items)
  {
    r := AppendVarInt(ss, |items|);
    r := AppendItems(r, write, items);
    assert r == ss + (WriteVarInt(|items|) + WriteItems(write, items));
  }

  // ----- the builder -----

  class BytecodeBuilder {
    var stringTable: map<Bytes, nat>
    var functions: seq<Bytes>
    ghost var strings: seq<Bytes>
    ghost var held: seq<Function>

    constructor ()
      ensures Valid() && strings == [] && held == []
    {
      stringTable, functions, strings, held := map[], [], [], [];
    }

    ghost predicate Valid()
      reads this
    {
      IsInterned(stringTable, strings) && AllHold(ReadFunction, functions, held)
    }

    /** The id of a string: an old one if the string is there, the next one otherwise. Zero is left to mean none. */
    method AddStringTableEntry(value: Bytes) returns (index: nat)
      requires Valid()
      modifies this`stringTable, this`strings
      ensures Valid()
      ensures strings == if value in old(strings) then old(strings) else old(strings) + [value]
      ensures 0 < index <= |strings|
      ensures forall i: nat :: i < |strings| ==> (strings[i] == value <==> i == index - 1)
    {
      if value in stringTable {
        index := stringTable[value];
      } else {
        TableSize(stringTable, strings);
        AddsString(stringTable, strings, value);
        index := |stringTable| + 1;
        stringTable := stringTable[value := index];
        strings := strings + [value];
      }
      OneId(stringTable, strings, value);
    }

    method WriteStringTable(ss: Bytes) returns (r: Bytes)
      requires IsInterned(stringTable, strings)
      ensures r == ss + WriteList(WriteTypes, strings)
    {
      var byId := StringsById();
      r := AppendList(ss, WriteTypes, byId);
    }

    /** The table, in whatever order its entries come, put in the order of the ids. */
    method StringsById() returns (byId: seq<Bytes>)
      requires IsInterned(stringTable, strings)
      ensures byId == strings
    {
      TableSize(stringTable, strings);
      var n := |stringTable|;
      byId := seq(n, _ => []);
      var left := stringTable.Keys;
      while left != {}
        invariant left <= stringTable.Keys && |byId| == n
        invariant forall s <- stringTable.Keys :: s !in left ==> byId[stringTable[s] - 1] == s
        decreases |left|
      {
        var s :| s in left;
        byId := byId[stringTable[s] - 1 := s];
        left := left - {s};
      }
      forall i: nat | i < n
        ensures byId[i] == strings[i]
      {
        assert strings[i] in stringTable.Keys;
      }
    }

    /** Ends a function: its bytes are kept until the file is put together. */
    method EndFunction(f: Function)
      requires Valid() && |f.insns| == |f.lines| > 0 && InRange(f.lines)
      modifies this`functions, this`held
      ensures Valid() && held == old(held) + [Loaded(f)]
    {
      var blob := WriteFunction([], f);
      assert blob[0..] == blob;
      AllHoldSnoc(ReadFunction, functions, held, blob, Loaded(f));
      functions := functions + [blob];
      held := held + [Loaded(f)];
    }

    /** Header, types, instructions, constants, children, debug info. */
    method WriteFunction(ss: Bytes, f: Function) returns (r: Bytes)
      requires |f.insns| == |f.lines| > 0 && InRange(f.lines)
      ensures ss <= r && Holds(ReadFunction, r[|ss|..], Loaded(f))
    {
      var h := f.header;
      r := ss + [h.maxstacksize, h.numparams, h.numupvalues, if h.isvararg then 1 else 0, h.flags];
      r := AppendTypes(r, f.typeinfo);
      r := AppendCode(r, f);
      ghost var k, baseline;
      r, k, baseline := AppendInfo(r, f);
      Assembled(ss, WriteHeader(h), WriteTypes(f.typeinfo), WriteCode(f), WriteInfo(f, k, baseline));
      assert r[|ss|..] == F.WriteFunction(f, k, baseline);
      forall rest: Bytes
        ensures ReadFunction(r[|ss|..] + rest) == Some((Loaded(f), rest))
      {
        FunctionRoundTrip(f, k, baseline, rest);
      }
    }

    lemma Assembled(ss: Bytes, a: Bytes, b: Bytes, c: Bytes, d: Bytes)
      ensures ss + a + b + c + d == ss + (a + (b + (c + d)))
    {
    }

    method AppendTypes(ss: Bytes, types: Bytes) returns (r: Bytes)
      ensures r == ss + WriteTypes(types)
    {
      r := AppendVarInt(ss, |types|);
      Assoc(ss, WriteVarInt(|types|), types);
      r := r + types;
    }

    method AppendCode(ss: Bytes, f: Function) returns (r: Bytes)
      ensures r == ss + WriteCode(f)
    {
      r := AppendList(ss, WriteWord, f.insns);
      r := AppendList(r, WriteConstant, f.constants);
      r := AppendList(r, WriteIndex, f.protos);
      Assembled(ss, WriteList(WriteWord, f.insns), WriteList(WriteConstant, f.constants), WriteList(WriteIndex, f.protos), []);
      assert WriteList(WriteIndex, f.protos) + [] == WriteList(WriteIndex, f.protos);
    }

    /** Lines are written only if every one of them is known. */
    method AppendInfo(ss: Bytes, f: Function) returns (r: Bytes, k: nat, baseline: Lines)
      requires |f.insns| == |f.lines| > 0 && InRange(f.lines)
      ensures Writable(f, k, baseline) && r == ss + WriteInfo(f, k, baseline)
    {
      r := AppendVarInt(ss, f.lineDefined);
      r := AppendVarInt(r, f.debugName);
      k, baseline := 0, [];
      var hasLines := true;
      for i := 0 to |f.lines|
        invariant hasLines ==> 0 !in f.lines[..i]
      {
        if f.lines[i] == 0 {
          hasLines := false;
          break;
        }
        assert f.lines[..i + 1] == f.lines[..i] + [f.lines[i]];
      }
      assert hasLines ==> f.lines[..|f.lines|] == f.lines;
      ghost var before := r;
      if hasLines {
        r, k, baseline := AppendLineInfo(r + [1], f.lines);
        Assoc(before, [1], WriteLineInfo(f.lines, k, baseline));
      } else {
        r := r + [0];
      }
      assert r == before + WriteLines(f.lines, k, baseline);
      r := AppendDebug(r, f.locals, f.upvalues);
      Assembled(ss, WriteIndex(f.lineDefined), WriteIndex(f.debugName), WriteLines(f.lines, k, baseline), WriteDebug(f.locals, f.upvalues));
    }

    method AppendDebug(ss: Bytes, locals: seq<DebugLocal>, upvalues: seq<uint32>) returns (r: Bytes)
      ensures r == ss + WriteDebug(locals, upvalues)
    {
      if locals != [] || upvalues != [] {
        r := AppendList(ss + [1], WriteLocal, locals);
        r := AppendList(r, WriteIndex, upvalues);
        Assembled(ss, [1], WriteList(WriteLocal, locals), WriteList(WriteIndex, upvalues), []);
        assert WriteList(WriteIndex, upvalues) + [] == WriteList(WriteIndex, upvalues);
      } else {
        r := ss + [0];
      }
    }

    /** The loader gets exactly the strings that were interned and the functions that were ended, in order. */
    method Finalize(mainFunction: uint32) returns (bytecode: Bytes)
      requires Valid() && mainFunction < |held|
      ensures forall rest: Bytes :: ReadFile(bytecode + rest) == Some((File(strings, held, mainFunction), rest))
    {
      bytecode := [VERSION];
      bytecode := bytecode + [TYPE_VERSION];
      bytecode := WriteStringTable(bytecode);
      bytecode := AppendBlobs(bytecode);
      bytecode := AppendVarInt(bytecode, mainFunction);
      Assembled([VERSION], [TYPE_VERSION], WriteList(WriteTypes, strings), WriteVarInt(|functions|) + Joined(functions),
                WriteIndex(mainFunction));
      assert bytecode == WriteFile(strings, functions, mainFunction);
      forall rest: Bytes
        ensures ReadFile(bytecode + rest) == Some((File(strings, held, mainFunction), rest))
      {
        FileRoundTrip(strings, functions, held, mainFunction, rest);
      }
    }

    method AppendBlobs(ss: Bytes) returns (r: Bytes)
      ensures r == ss + (WriteVarInt(|functions|) + Joined(functions))
    {
      r := AppendVarInt(ss, |functions|);
      ghost var before := r;
      for i := 0 to |functions|
        invariant r == before + Joined(functions[..i])
      {
        JoinedSnoc(functions[..i], functions[i]);
        assert functions[..i + 1] == functions[..i] + [functions[i]];
        r := r + functions[i];
      }
      assert functions[..|functions|] == functions;
      Assoc(ss, WriteVarInt(|functions|), Joined(functions));
    }
  }
}
