/** The code of an unrolled loop: copies one after the other, with the jumps of break and continue patched in. */
module UnrollJumps {
  import opened Sequences
  import opened Results

  datatype Op = Act(n: nat) | Branch(n: nat, rel: int) | Jump(rel: int) | Leave(n: nat)

  datatype Kind = Break | Continue

  datatype LoopJump = LoopJump(kind: Kind, at: nat)

  // ----- running code -----

  type Trace = seq<nat>

  type Oracle = (Trace, nat) -> bool

  datatype Config = At(pc: int, trace: Trace) | Left(trace: Trace)

  function Step(o: Oracle, code: seq<Op>, c: Config): Config {
    if c.At? && 0 <= c.pc < |code| then
      match code[c.pc]
      case Act(n) => At(c.pc + 1, c.trace + [n])
      case Branch(n, rel) => At(c.pc + 1 + (if o(c.trace, n) then rel else 0), c.trace + [n])
      case Jump(rel) => At(c.pc + 1 + rel, c.trace)
      case Leave(n) => Left(c.trace + [n])
    else c
  }

  function Run(o: Oracle, code: seq<Op>, c: Config, n: nat): Config
    decreases n
  {
    if n == 0 then c else Run(o, code, Step(o, code, c), n - 1)
  }

  ghost predicate Reaches(o: Oracle, code: seq<Op>, c: Config, d: Config) {
    exists n: nat :: Run(o, code, c, n) == d
  }

  lemma {:induction false} RunSplit(o: Oracle, code: seq<Op>, c: Config, m: nat, n: nat)
    ensures Run(o, code, c, m + n) == Run(o, code, Run(o, code, c, m), n)
    decreases m
  {
    if m > 0 {
      RunSplit(o, code, Step(o, code, c), m - 1, n);
    }
  }

  lemma ReachesTrans(o: Oracle, code: seq<Op>, a: Config, b: Config, c: Config)
    requires Reaches(o, code, a, b) && Reaches(o, code, b, c)
    ensures Reaches(o, code, a, c)
  {
    var m: nat :| Run(o, code, a, m) == b;
    var n: nat :| Run(o, code, b, n) == c;
    RunSplit(o, code, a, m, n);
  }

  lemma ReachesSelf(o: Oracle, code: seq<Op>, a: Config)
    ensures Reaches(o, code, a, a)
  {
    assert Run(o, code, a, 0) == a;
  }

  lemma ReachesNext(o: Oracle, code: seq<Op>, a: Config)
    ensures Reaches(o, code, a, Step(o, code, a))
  {
    assert Run(o, code, a, 1) == Run(o, code, Step(o, code, a), 0);
  }

  // ----- the code of one body, its loop jumps still open -----

  datatype Fragment = Fragment(code: seq<Op>, jumps: seq<LoopJump>)

  function KindAt(jumps: seq<LoopJump>, a: nat): Option<Kind> {
    if jumps == [] then None else if jumps[0].at == a then Some(jumps[0].kind) else KindAt(jumps[1..], a)
  }

  ghost predicate WellFormed(f: Fragment) {
    && (forall j <- f.jumps :: j.at < |f.code| && f.code[j.at] == Jump(0))
    && (forall i, j :: 0 <= i < j < |f.jumps| ==> f.jumps[i].at != f.jumps[j].at)
  }

  datatype Exit = FellOut(trace: Trace) | Jumped(kind: Kind, trace: Trace) | Ended(trace: Trace)

  /** How a body ends when it is run on its own: at its end, at one of its loop jumps, or by leaving the function. */
  function BodyRun(o: Oracle, f: Fragment, c: Config, n: nat): Option<Exit>
    decreases n
  {
    if c.Left? then Some(Ended(c.trace))
    else if c.pc == |f.code| then Some(FellOut(c.trace))
    else if !(0 <= c.pc < |f.code|) then None
    else if KindAt(f.jumps, c.pc).Some? then Some(Jumped(KindAt(f.jumps, c.pc).value, c.trace))
    else if n == 0 then None
    else BodyRun(o, f, Step(o, f.code, c), n - 1)
  }

  /** The bodies in sequence: a continue goes on with the next one, a break ends them all. */
  function LoopRun(o: Oracle, fs: seq<Fragment>, trace: Trace, n: nat): Option<Exit>
    decreases |fs|
  {
    if fs == [] then Some(FellOut(trace)) else
      match BodyRun(o, fs[0], At(0, trace), n)
      case None => None
      case Some(Ended(t)) => Some(Ended(t))
      case Some(FellOut(t)) => LoopRun(o, fs[1..], t, n)
      case Some(Jumped(k, t)) => if k.Continue? then LoopRun(o, fs[1..], t, n) else Some(FellOut(t))
  }

  // ----- the patched code -----

  function Length(fs: seq<Fragment>): nat {
    if fs == [] then 0 else |fs[0].code| + Length(fs[1..])
  }

  /** A body with its jumps patched; the end of the loop is `rest` words after its start. */
  function Patched(f: Fragment, rest: nat): (r: seq<Op>)
    ensures |r| == |f.code|
  {
    seq(|f.code|, a requires 0 <= a < |f.code| =>
      match KindAt(f.jumps, a)
      case None => f.code[a]
      case Some(k) => Jump((if k.Continue? then |f.code| else rest) - a - 1))
  }

  function UnrolledCode(fs: seq<Fragment>): (r: seq<Op>)
    ensures |r| == Length(fs)
  {
    if fs == [] then [] else Patched(fs[0], Length(fs)) + UnrolledCode(fs[1..])
  }

  /** The word at `a` of a body that starts at `from` in the whole code. */
  ghost predicate Embedded(code: seq<Op>, from: nat, part: seq<Op>) {
    from + |part| <= |code| && forall a :: 0 <= a < |part| ==> code[from + a] == part[a]
  }

  function Shifted(c: Config, by_: nat): Config {
    if c.At? then At(c.pc + by_, c.trace) else c
  }

  /** Inside the whole code a body runs as on its own, and its exits lead where they should. */
  lemma {:induction false} BodyEmbedded(o: Oracle, code: seq<Op>, from: nat, f: Fragment, rest: nat, c: Config, n: nat)
    requires Embedded(code, from, Patched(f, rest)) && BodyRun(o, f, c, n).Some?
    ensures
      var d := match BodyRun(o, f, c, n).value
        case Ended(t) => Left(t)
        case FellOut(t) => At(from + |f.code|, t)
        case Jumped(k, t) => At(from + (if k.Continue? then |f.code| else rest), t);
      Reaches(o, code, Shifted(c, from), d)
    decreases n
  {
    if c.Left? || c.pc == |f.code| {
      ReachesSelf(o, code, Shifted(c, from));
    } else {
      ReachesNext(o, code, Shifted(c, from));
      assert code[from + c.pc] == Patched(f, rest)[c.pc];
      if KindAt(f.jumps, c.pc).None? {
        var next := Step(o, f.code, c);
        assert Patched(f, rest)[c.pc] == f.code[c.pc];
        assert Step(o, code, Shifted(c, from)) == Shifted(next, from);
        BodyEmbedded(o, code, from, f, rest, next, n - 1);
        var d := match BodyRun(o, f, c, n).value
          case Ended(t) => Left(t)
          case FellOut(t) => At(from + |f.code|, t)
          case Jumped(k, t) => At(from + (if k.Continue? then |f.code| else rest), t);
        ReachesTrans(o, code, Shifted(c, from), Shifted(next, from), d);
      }
    }
  }

  /** The patched code does what the bodies do in sequence, and control ends up behind the loop. */
  lemma {:induction false} UnrolledCodeRuns(o: Oracle, code: seq<Op>, from: nat, fs: seq<Fragment>, trace: Trace, n: nat)
    requires Embedded(code, from, UnrolledCode(fs)) && LoopRun(o, fs, trace, n).Some?
    ensures LoopRun(o, fs, trace, n).value.FellOut? || LoopRun(o, fs, trace, n).value.Ended?
    ensures
      var r := LoopRun(o, fs, trace, n).value;
      Reaches(o, code, At(from, trace), if r.Ended? then Left(r.trace) else At(from + Length(fs), r.trace))
    decreases |fs|
  {
    if fs == [] {
      ReachesSelf(o, code, At(from, trace));
    } else {
      var first := Patched(fs[0], Length(fs));
      assert Embedded(code, from, first) by {
        assert forall a :: 0 <= a < |first| ==> UnrolledCode(fs)[a] == first[a];
      }
      BodyEmbedded(o, code, from, fs[0], Length(fs), At(0, trace), n);
      var x := BodyRun(o, fs[0], At(0, trace), n).value;
      if x.FellOut? || (x.Jumped? && x.kind.Continue?) {
        var next := from + |fs[0].code|;
        assert Embedded(code, next, UnrolledCode(fs[1..])) by {
          assert forall a :: 0 <= a < |UnrolledCode(fs[1..])| ==> UnrolledCode(fs)[|first| + a] == UnrolledCode(fs[1..])[a];
        }
        UnrolledCodeRuns(o, code, next, fs[1..], x.trace, n);
        var r := LoopRun(o, fs, trace, n).value;
        ReachesTrans(o, code, At(from, trace), At(next, x.trace), if r.Ended? then Left(r.trace) else At(from + Length(fs), r.trace));
      }
    }
  }

  // ----- emitting it -----

  /** The code once the jumps of one kind among `jumps` are patched. */
  ghost predicate PatchedBy(code: seq<Op>, before: seq<Op>, jumps: seq<LoopJump>, kind: Kind, target: nat) {
    && |code| == |before|
    && forall a: nat :: a < |code| ==> code[a] == if LoopJump(kind, a) in jumps then Jump(target - a - 1) else before[a]
  }

  function ShiftJumps(jumps: seq<LoopJump>, base: nat): (r: seq<LoopJump>)
    ensures |r| == |jumps|
  {
    seq(|jumps|, i requires 0 <= i < |jumps| => jumps[i].(at := jumps[i].at + base))
  }

  lemma {:induction false} KindAtIs(jumps: seq<LoopJump>, a: nat, kind: Kind)
    requires forall i, j :: 0 <= i < j < |jumps| ==> jumps[i].at != jumps[j].at
    ensures KindAt(jumps, a) == Some(kind) <==> LoopJump(kind, a) in jumps
    decreases |jumps|
  {
    if jumps != [] {
      KindAtIs(jumps[1..], a, kind);
      assert jumps == [jumps[0]] + jumps[1..];
      if jumps[0].at == a {
        forall j <- jumps[1..]
          ensures j.at != a
        {
          var i :| 0 <= i < |jumps[1..]| && jumps[1..][i] == j;
          assert jumps[i + 1] == j;
        }
      }
    }
  }

  lemma ShiftedIn(jumps: seq<LoopJump>, base: nat, kind: Kind, a: nat)
    ensures a >= base ==> (LoopJump(kind, a) in ShiftJumps(jumps, base) <==> LoopJump(kind, a - base) in jumps)
    ensures a < base ==> LoopJump(kind, a) !in ShiftJumps(jumps, base)
  {
    var shifted := ShiftJumps(jumps, base);
    if a >= base && LoopJump(kind, a - base) in jumps {
      var i :| 0 <= i < |jumps| && jumps[i] == LoopJump(kind, a - base);
      assert shifted[i] == LoopJump(kind, a);
    }
  }

  /** A body whose continue jumps are patched and whose break jumps are still open. */
  function HalfPatched(f: Fragment): (r: seq<Op>)
    ensures |r| == |f.code|
  {
    seq(|f.code|, a requires 0 <= a < |f.code| =>
      if KindAt(f.jumps, a) == Some(Continue) then Jump(|f.code| - a - 1) else f.code[a])
  }

  function Halves(fs: seq<Fragment>): (r: seq<Op>)
    ensures |r| == Length(fs)
  {
    if fs == [] then [] else HalfPatched(fs[0]) + Halves(fs[1..])
  }

  function OpenJumps(fs: seq<Fragment>, base: nat): seq<LoopJump> {
    if fs == [] then [] else ShiftJumps(fs[0].jumps, base) + OpenJumps(fs[1..], base + |fs[0].code|)
  }

  ghost predicate AllWellFormed(fs: seq<Fragment>) {
    fs != [] ==> WellFormed(fs[0]) && AllWellFormed(fs[1..])
  }

  lemma {:induction false} EachWellFormed(fs: seq<Fragment>, i: nat)
    requires AllWellFormed(fs) && i < |fs|
    ensures WellFormed(fs[i])
    decreases |fs|
  {
    if i > 0 {
      EachWellFormed(fs[1..], i - 1);
    }
  }

  lemma ContinuesPatched(code: seq<Op>, before: seq<Op>, f: Fragment)
    requires WellFormed(f)
    requires PatchedBy(code, before + f.code, ShiftJumps(f.jumps, |before|), Continue, |before| + |f.code|)
    ensures code == before + HalfPatched(f)
  {
    forall a: nat | a < |code|
      ensures code[a] == (before + HalfPatched(f))[a]
    {
      ShiftedIn(f.jumps, |before|, Continue, a);
      if a >= |before| {
        KindAtIs(f.jumps, a - |before|, Continue);
      }
    }
  }

  lemma {:induction false} OpenJumpsRange(fs: seq<Fragment>, base: nat)
    requires AllWellFormed(fs)
    ensures forall j <- OpenJumps(fs, base) :: base <= j.at < base + Length(fs)
    decreases |fs|
  {
    if fs != [] {
      OpenJumpsRange(fs[1..], base + |fs[0].code|);
      forall j <- ShiftJumps(fs[0].jumps, base)
        ensures base <= j.at < base + |fs[0].code|
      {
        ShiftedIn(fs[0].jumps, base, j.kind, j.at);
        assert LoopJump(j.kind, j.at) == j;
      }
    }
  }

  lemma NotInShifted(jumps: seq<LoopJump>, base: nat, size: nat, j: LoopJump)
    requires forall k <- jumps :: k.at < size
    requires j.at >= base + size
    ensures j !in ShiftJumps(jumps, base)
  {
    ShiftedIn(jumps, base, j.kind, j.at);
    assert LoopJump(j.kind, j.at) == j;
  }

  /** Whether word `p` of the copies is a break. */
  predicate BreakAt(fs: seq<Fragment>, p: nat) {
    fs != [] &&
    if p < |fs[0].code| then KindAt(fs[0].jumps, p) == Some(Break) else BreakAt(fs[1..], p - |fs[0].code|)
  }

  /** Patching the breaks as well, word by word. */
  lemma {:induction false} BreaksPatchedAt(fs: seq<Fragment>, p: nat)
    requires p < Length(fs)
    ensures UnrolledCode(fs)[p] == if BreakAt(fs, p) then Jump(Length(fs) - p - 1) else Halves(fs)[p]
    decreases |fs|
  {
    var size := |fs[0].code|;
    if p >= size {
      BreaksPatchedAt(fs[1..], p - size);
    }
  }

  /** The jump is among the open ones, body by body. */
  predicate IsOpen(fs: seq<Fragment>, base: nat, j: LoopJump) {
    fs != [] && (j in ShiftJumps(fs[0].jumps, base) || IsOpen(fs[1..], base + |fs[0].code|, j))
  }

  lemma {:induction false} IsOpenIn(fs: seq<Fragment>, base: nat, j: LoopJump)
    ensures IsOpen(fs, base, j) <==> j in OpenJumps(fs, base)
    decreases |fs|
  {
    if fs != [] {
      IsOpenIn(fs[1..], base + |fs[0].code|, j);
    }
  }

  lemma FirstBreak(f: Fragment, base: nat, p: nat)
    requires WellFormed(f)
    ensures KindAt(f.jumps, p) == Some(Break) <==> LoopJump(Break, base + p) in ShiftJumps(f.jumps, base)
    ensures p >= |f.code| ==> LoopJump(Break, base + p) !in ShiftJumps(f.jumps, base)
  {
    KindAtIs(f.jumps, p, Break);
    ShiftedIn(f.jumps, base, Break, base + p);
    if p >= |f.code| {
      NotInShifted(f.jumps, base, |f.code|, LoopJump(Break, base + p));
    }
  }

  lemma {:induction false} BreakIsOpen(fs: seq<Fragment>, base: nat, p: nat)
    requires AllWellFormed(fs) && p < Length(fs)
    ensures BreakAt(fs, p) <==> IsOpen(fs, base, LoopJump(Break, base + p))
    decreases |fs|
  {
    var j := LoopJump(Break, base + p);
    FirstBreak(fs[0], base, p);
    var size := |fs[0].code|;
    if p < size {
      NotOpenBefore(fs[1..], base + size, j);
    } else {
      BreakIsOpen(fs[1..], base + size, p - size);
      assert LoopJump(Break, base + size + (p - size)) == j;
    }
  }

  lemma NotOpenBefore(fs: seq<Fragment>, base: nat, j: LoopJump)
    requires AllWellFormed(fs) && j.at < base
    ensures !IsOpen(fs, base, j)
  {
    OpenJumpsRange(fs, base);
    IsOpenIn(fs, base, j);
  }

  lemma OpenNotBefore(fs: seq<Fragment>, base: nat)
    requires AllWellFormed(fs)
    ensures forall j <- OpenJumps(fs, base) :: base <= j.at
  {
    OpenJumpsRange(fs, base);
  }

  /** The words are patched where the open jumps say, all of them from `base` on. */
  ghost predicate PatchedWords(halves: seq<Op>, unrolled: seq<Op>, open: seq<LoopJump>, base: nat, target: nat) {
    && |halves| == |unrolled|
    && (forall j <- open :: base <= j.at)
    && forall p: nat :: p < |halves| ==>
         unrolled[p] == if LoopJump(Break, base + p) in open then Jump(target - base - p - 1) else halves[p]
  }

  lemma Glue(code: seq<Op>, before: seq<Op>, halves: seq<Op>, unrolled: seq<Op>, open: seq<LoopJump>, target: nat)
    requires PatchedBy(code, before + halves, open, Break, target)
    requires PatchedWords(halves, unrolled, open, |before|, target)
    ensures code == before + unrolled
  {
    forall a: nat | a < |code|
      ensures code[a] == (before + unrolled)[a]
    {
      if a >= |before| {
        var p := a - |before|;
        assert LoopJump(Break, |before| + p) == LoopJump(Break, a);
        assert unrolled[p] == if LoopJump(Break, |before| + p) in open then Jump(target - |before| - p - 1) else halves[p];
      }
    }
  }

  lemma WordPatched(fs: seq<Fragment>, base: nat, p: nat)
    requires AllWellFormed(fs) && p < Length(fs)
    ensures UnrolledCode(fs)[p] ==
            if LoopJump(Break, base + p) in OpenJumps(fs, base) then Jump(Length(fs) - p - 1) else Halves(fs)[p]
  {
    BreaksPatchedAt(fs, p);
    BreakIsOpen(fs, base, p);
    IsOpenIn(fs, base, LoopJump(Break, base + p));
  }

  lemma BreaksPatched(code: seq<Op>, before: seq<Op>, fs: seq<Fragment>, open: seq<LoopJump>)
    requires AllWellFormed(fs) && open == OpenJumps(fs, |before|)
    requires PatchedBy(code, before + Halves(fs), open, Break, |before| + Length(fs))
    ensures code == before + UnrolledCode(fs)
  {
    WordsPatched(fs, |before|, |before| + Length(fs));
    Glue(code, before, Halves(fs), UnrolledCode(fs), open, |before| + Length(fs));
  }

  lemma WordsPatched(fs: seq<Fragment>, base: nat, target: nat)
    requires AllWellFormed(fs) && target == base + Length(fs)
    ensures PatchedWords(Halves(fs), UnrolledCode(fs), OpenJumps(fs, base), base, target)
  {
    OpenNotBefore(fs, base);
    forall p: nat | p < |Halves(fs)|
      ensures UnrolledCode(fs)[p] == if LoopJump(Break, base + p) in OpenJumps(fs, base) then Jump(target - base - p - 1) else Halves(fs)[p]
    {
      WordPatched(fs, base, p);
    }
  }

  lemma HalvesOf(fs: seq<Fragment>, first: Fragment, rest: seq<Fragment>, base: nat)
    requires fs != [] && first == fs[0] && rest == fs[1..]
    ensures Halves(fs) == HalfPatched(first) + Halves(rest) && Length(fs) == |first.code| + Length(rest)
    ensures OpenJumps(fs, base) == ShiftJumps(first.jumps, base) + OpenJumps(rest, base + |first.code|)
  {
  }

  lemma {:induction false} HalvesSnoc(fs: seq<Fragment>, f: Fragment, base: nat)
    ensures Halves(fs + [f]) == Halves(fs) + HalfPatched(f)
    ensures Length(fs + [f]) == Length(fs) + |f.code|
    ensures OpenJumps(fs + [f], base) == OpenJumps(fs, base) + ShiftJumps(f.jumps, base + Length(fs))
    decreases |fs|
  {
    if fs == [] {
      assert fs + [f] == [f];
      HalvesOne(f, base);
    } else {
      HalvesSnoc(fs[1..], f, base + |fs[0].code|);
      TailOfSum(fs, [f]);
      HalvesCons(fs[0], fs[1..], f, base, fs + [f]);
      HalvesOf(fs, fs[0], fs[1..], base);
    }
  }

  /** One more copy behind what there was before. */
  lemma HalvesNext(before: seq<Op>, jumps: seq<LoopJump>, fs: seq<Fragment>, iv: nat)
    requires iv < |fs|
    ensures before + Halves(fs[..iv + 1]) == (before + Halves(fs[..iv])) + HalfPatched(fs[iv])
    ensures jumps + OpenJumps(fs[..iv + 1], |before|) ==
            (jumps + OpenJumps(fs[..iv], |before|)) + ShiftJumps(fs[iv].jumps, |before + Halves(fs[..iv])|)
  {
    HalvesSnoc(fs[..iv], fs[iv], |before|);
    assert fs[..iv + 1] == fs[..iv] + [fs[iv]];
    Assoc(before, Halves(fs[..iv]), HalfPatched(fs[iv]));
    Assoc(jumps, OpenJumps(fs[..iv], |before|), ShiftJumps(fs[iv].jumps, |before| + |Halves(fs[..iv])|));
  }

  lemma HalvesOne(f: Fragment, base: nat)
    ensures Halves([f]) == HalfPatched(f) == [] + HalfPatched(f)
    ensures Length([f]) == |f.code|
    ensures OpenJumps([f], base) == ShiftJumps(f.jumps, base) == [] + ShiftJumps(f.jumps, base)
  {
    assert [f][1..] == [];
  }

  lemma TailOfSum<T>(a: seq<T>, b: seq<T>)
    requires a != []
    ensures (a + b)[0] == a[0] && (a + b)[1..] == a[1..] + b
  {
  }

  lemma HalvesCons(first: Fragment, rest: seq<Fragment>, f: Fragment, base: nat, all: seq<Fragment>)
    requires all != [] && all[0] == first && all[1..] == rest + [f]
    requires Halves(rest + [f]) == Halves(rest) + HalfPatched(f)
    requires Length(rest + [f]) == Length(rest) + |f.code|
    requires
      var b := base + |first.code|;
      OpenJumps(rest + [f], b) == OpenJumps(rest, b) + ShiftJumps(f.jumps, b + Length(rest))
    ensures Halves(all) == (HalfPatched(first) + Halves(rest)) + HalfPatched(f)
    ensures Length(all) == |first.code| + Length(rest) + |f.code|
    ensures
      var b := base + |first.code|;
      OpenJumps(all, base) == (ShiftJumps(first.jumps, base) + OpenJumps(rest, b)) + ShiftJumps(f.jumps, b + Length(rest))
  {
    var b := base + |first.code|;
    Assoc(HalfPatched(first), Halves(rest), HalfPatched(f));
    Assoc(ShiftJumps(first.jumps, base), OpenJumps(rest, b), ShiftJumps(f.jumps, b + Length(rest)));
  }

  class LoopEmitter {
    var code: seq<Op>
    var loopJumps: seq<LoopJump>

    constructor ()
      ensures code == [] && loopJumps == []
    {
      code, loopJumps := [], [];
    }

    /** The code of a body, with its break and continue jumps put on the list. */
    method CompileBody(f: Fragment)
      modifies this
      ensures code == old(code) + f.code
      ensures loopJumps == old(loopJumps) + ShiftJumps(f.jumps, old(|code|))
    {
      loopJumps := loopJumps + ShiftJumps(f.jumps, |code|);
      code := code + f.code;
    }

    /** Patches all jumps of one kind from `first` on. */
    method PatchJumps(first: nat, kind: Kind, target: nat)
      requires first <= |loopJumps| && forall j <- loopJumps[first..] :: j.at < |code|
      modifies this`code
      ensures PatchedBy(code, old(code), loopJumps[first..], kind, target)
    {
      for i := first to |loopJumps|
        invariant PatchedBy(code, old(code), loopJumps[first..i], kind, target)
      {
        var jump := loopJumps[i];
        assert jump == loopJumps[first..][i - first];
        assert loopJumps[first..i + 1] == loopJumps[first..i] + [jump];
        if jump.kind == kind {
          code := code[jump.at := Jump(target - jump.at - 1)];
          assert jump == LoopJump(kind, jump.at);
        }
      }
      assert loopJumps[first..|loopJumps|] == loopJumps[first..];
    }

    /** One copy: its continues lead to the end of it. */
    method CompileCopy(body: Fragment)
      requires WellFormed(body)
      modifies this
      ensures code == old(code) + HalfPatched(body)
      ensures loopJumps == old(loopJumps) + ShiftJumps(body.jumps, old(|code|))
    {
      var iterJumps := |loopJumps|;
      ghost var start := code;
      CompileBody(body);
      assert loopJumps[iterJumps..] == ShiftJumps(body.jumps, |start|);
      PatchJumps(iterJumps, Continue, |code|);
      ContinuesPatched(code, start, body);
    }

    /** All copies, with their breaks still open. */
    method CompileCopies(bodies: seq<Fragment>)
      requires AllWellFormed(bodies)
      modifies this
      ensures code == old(code) + Halves(bodies)
      ensures loopJumps == old(loopJumps) + OpenJumps(bodies, old(|code|))
    {
      ghost var before, jumps := code, loopJumps;
      for iv := 0 to |bodies|
        invariant code == before + Halves(bodies[..iv])
        invariant loopJumps == jumps + OpenJumps(bodies[..iv], |before|)
      {
        EachWellFormed(bodies, iv);
        HalvesNext(before, jumps, bodies, iv);
        CompileCopy(bodies[iv]);
      }
      assert bodies[..|bodies|] == bodies;
    }

    /** Continues lead to the next copy, breaks behind the last one; the list is then as long as before. */
    method CompileUnrolledFor(bodies: seq<Fragment>)
      requires AllWellFormed(bodies)
      modifies this
      ensures code == old(code) + UnrolledCode(bodies)
      ensures loopJumps == old(loopJumps)
    {
      ghost var before := code;
      var oldJumps := |loopJumps|;
      CompileCopies(bodies);
      OpenJumpsRange(bodies, |before|);
      assert loopJumps[oldJumps..] == OpenJumps(bodies, |before|);
      PatchJumps(oldJumps, Break, |code|);
      BreaksPatched(code, before, bodies, loopJumps[oldJumps..]);
      loopJumps := loopJumps[..oldJumps];
    }
  }
}
