/**
 Instruction words, bit field by bit field, and what executing them does as far as control flow is
 concerned. Whatever else an instruction does is recorded in a trace; the machine decides from the
 trace so far whether a conditional jump is taken. Plain jumps leave no mark on the trace.
 */
module JumpCode {
  import opened ByteStrings
  import opened Results

  type half = n: nat | n < 0x1_0000

  const LOP_LOADB: byte := 3
  const LOP_RETURN: byte := 22
  const LOP_JUMP: byte := 23
  const LOP_JUMPX: byte := 67

  /**
   A 32-bit word and the source line it is attributed to, which the bytecode builder keeps in a parallel vector.
   The opcode is the low byte, A the next one, and B and C, or D, the upper half.
   */
  datatype Word = Word(op: byte, a: byte, hi: half, line: int)

  function D(w: Word): int {
    if w.hi < 0x8000 then w.hi else w.hi - 0x1_0000
  }

  function C(w: Word): nat {
    w.hi / 0x100
  }

  /** The signed 24-bit field above the opcode. */
  function E(w: Word): int {
    var e := w.a + 0x100 * w.hi;
    if e < 0x80_0000 then e else e - 0x100_0000
  }

  /** Writing an offset keeps its low bits. */
  function SetD(w: Word, offset: int): Word {
    w.(hi := offset % 0x1_0000)
  }

  function SetE(w: Word, offset: int): Word {
    w.(a := offset % 0x100, hi := (offset / 0x100) % 0x1_0000)
  }

  predicate Fits16(n: int) {
    -0x8000 <= n < 0x8000
  }

  predicate Fits24(n: int) {
    -0x80_0000 <= n < 0x80_0000
  }

  /** A field reads back what was written exactly when it fits. */
  lemma FieldsReadBack(w: Word, n: int)
    ensures D(SetD(w, n)) == n <==> Fits16(n)
    ensures E(SetE(w, n)) == n <==> Fits24(n)
  {
    var lo, hi := n % 0x100, (n / 0x100) % 0x1_0000;
    assert n == 0x100 * (n / 0x100) + lo;
    assert n / 0x100 == 0x1_0000 * (n / 0x100 / 0x1_0000) + hi;
    assert lo + 0x100 * hi == n - 0x100_0000 * (n / 0x100 / 0x1_0000);
  }

  /** The word as a number. */
  function Bits(w: Word): nat {
    w.op + 0x100 * w.a + 0x1_0000 * w.hi
  }

  /** Writing an offset replaces the upper 16 (or 24) bits by its lowest ones. */
  lemma FieldBits(w: Word, n: int)
    ensures Bits(SetD(w, n)) == Bits(w) % 0x1_0000 + 0x1_0000 * (n % 0x1_0000)
    ensures Bits(SetE(w, n)) == Bits(w) % 0x100 + 0x100 * (n % 0x100_0000)
  {
    Rest(w.op + 0x100 * w.a, w.hi, 0x1_0000);
    Rest(w.op, w.a + 0x100 * w.hi, 0x100);
    TwoFields(n);
  }

  lemma Rest(low: nat, high: nat, size: nat)
    requires low < size && (size == 0x100 || size == 0x1_0000)
    ensures (low + size * high) % size == low
  {
  }

  lemma TwoFields(n: int)
    ensures n % 0x100_0000 == n % 0x100 + 0x100 * (n / 0x100 % 0x1_0000)
  {
    var lo, hi := n % 0x100, n / 0x100 % 0x1_0000;
    assert n == 0x100 * (n / 0x100) + lo;
    assert n / 0x100 == 0x1_0000 * (n / 0x100 / 0x1_0000) + hi;
    assert n == 0x100_0000 * (n / 0x100 / 0x1_0000) + lo + 0x100 * hi;
  }

  predicate IsJumpD(op: byte) {
    op == LOP_JUMP || 24 <= op <= 32 || 56 <= op <= 59 || op == 61 || 76 <= op <= 80
  }

  predicate IsFastCall(op: byte) {
    op == 68 || 73 <= op <= 75
  }

  function OpLength(op: byte): (n: nat)
    ensures n == 1 || n == 2
  {
    if op == 7 || op == 8 || op == 12 || op == 15 || op == 16 || op == 20 || 27 <= op <= 32 || op == 53 || op == 55
       || op == 58 || op == 66 || op == 74 || op == 75 || 77 <= op <= 80
    then 2 else 1
  }

  // ----- execution -----

  /** An executed instruction: its first word, without the offset of a jump, and its second word. */
  datatype Executed = Executed(word: Word, aux: Option<Word>)

  type Trace = seq<Executed>

  datatype Effect = Next | Taken | Halt

  type Oracle = (Trace, Executed) -> Effect

  datatype Outcome = Running(pc: int, trace: Trace) | Halted(trace: Trace) | Stuck

  function Observed(code: seq<Word>, pc: nat): Executed
    requires pc < |code|
  {
    var w := code[pc];
    Executed(
      if IsJumpD(w.op) then w.(hi := 0) else w,
      if OpLength(w.op) == 2 && pc + 1 < |code| then Some(code[pc + 1]) else None)
  }

  /** Executes the instruction at `pc`, whose jump leads to `dest` if it is one. A return halts. */
  function StepTo(o: Oracle, code: seq<Word>, pc: nat, trace: Trace, dest: int): Outcome
    requires pc < |code|
  {
    var w := code[pc];
    if w.op == LOP_JUMP then Running(dest, trace)
    else if w.op == LOP_JUMPX then Running(pc + 1 + E(w), trace)
    else
      var x := Observed(code, pc);
      var t := trace + [x];
      match if w.op == LOP_RETURN then Halt else o(trace, x)
      case Halt => Halted(t)
      case Taken =>
        if IsJumpD(w.op) then Running(dest, t)
        else if IsFastCall(w.op) then Running(pc + C(w) + 2, t)
        else Running(AfterSkip(w, pc), t)
      case Next => Running(AfterSkip(w, pc), t)
  }

  /** The next instruction; a boolean load can skip some. */
  function AfterSkip(w: Word, pc: nat): nat {
    if w.op == LOP_LOADB then pc + 1 + C(w) else pc + OpLength(w.op)
  }

  /** A step of finished code, whose jumps carry their offsets. */
  function Step(o: Oracle, code: seq<Word>, s: Outcome): Outcome {
    if s.Running? then
      if 0 <= s.pc < |code| then StepTo(o, code, s.pc, s.trace, s.pc + 1 + D(code[s.pc])) else Stuck
    else s
  }

  function Run(o: Oracle, code: seq<Word>, s: Outcome, n: nat): Outcome
    decreases n
  {
    if n == 0 then s else Run(o, code, Step(o, code, s), n - 1)
  }

  lemma {:induction false} RunSplit(o: Oracle, code: seq<Word>, s: Outcome, m: nat, n: nat)
    ensures Run(o, code, s, m + n) == Run(o, code, Run(o, code, s, m), n)
    decreases m
  {
    if m > 0 {
      RunSplit(o, code, Step(o, code, s), m - 1, n);
    }
  }

  /** An outcome that is not running stays. */
  lemma {:induction false} Settled(o: Oracle, code: seq<Word>, s: Outcome, n: nat)
    requires !s.Running?
    ensures Run(o, code, s, n) == s
    decreases n
  {
    if n > 0 {
      Settled(o, code, s, n - 1);
    }
  }

  /** Some run from `s` halts with the trace. */
  ghost predicate Yields(o: Oracle, code: seq<Word>, s: Outcome, trace: Trace) {
    exists n: nat :: Run(o, code, s, n) == Halted(trace)
  }

  /** A halting run halts from every point on its way. */
  lemma HaltsAfter(o: Oracle, code: seq<Word>, s: Outcome, k: nat, n: nat, t: Trace) returns (m: nat)
    requires Run(o, code, s, n) == Halted(t)
    ensures m <= n && (k > 0 && n > 0 ==> m < n)
    ensures Run(o, code, Run(o, code, s, k), m) == Halted(t)
  {
    if k <= n {
      RunSplit(o, code, s, k, n - k);
      m := n - k;
    } else {
      RunSplit(o, code, s, n, k - n);
      Settled(o, code, Halted(t), k - n);
      m := 0;
    }
  }

  /** The traces yielded do not depend on where on its way a run starts. */
  lemma SameYield(o: Oracle, code: seq<Word>, s: Outcome, k: nat, t: Trace)
    ensures Yields(o, code, s, t) <==> Yields(o, code, Run(o, code, s, k), t)
  {
    if Yields(o, code, s, t) {
      var n: nat :| Run(o, code, s, n) == Halted(t);
      var m := HaltsAfter(o, code, s, k, n, t);
    }
    if Yields(o, code, Run(o, code, s, k), t) {
      var n: nat :| Run(o, code, Run(o, code, s, k), n) == Halted(t);
      RunSplit(o, code, s, k, n);
    }
  }

  /** The starts of instructions: every word that control can reach, and none of their second words. */
  ghost predicate Closed(code: seq<Word>, starts: set<nat>) {
    && (forall pc <- starts :: pc < |code|)
    && forall pc {:trigger SuccessorsIn(code[pc], pc, starts)} {:trigger SecondWordIn(code, pc, starts)} | pc in starts ::
         SuccessorsIn(code[pc], pc, starts) && SecondWordIn(code, pc, starts)
  }

  ghost predicate SecondWordIn(code: seq<Word>, pc: nat, starts: set<nat>)
    requires pc < |code|
  {
    OpLength(code[pc].op) == 2 ==> pc + 1 < |code| && pc + 1 !in starts
  }

  ghost predicate SuccessorsIn(w: Word, pc: nat, starts: set<nat>) {
    && (IsJumpD(w.op) ==> Inside(pc + 1 + D(w), starts))
    && (IsFastCall(w.op) ==> pc + C(w) + 2 in starts)
    && (w.op == LOP_JUMPX ==> Inside(pc + 1 + E(w), starts))
    && (w.op != LOP_JUMP && w.op != LOP_JUMPX && w.op != LOP_RETURN ==> AfterSkip(w, pc) in starts)
  }

  ghost predicate Inside(pc: int, starts: set<nat>) {
    0 <= pc && pc in starts
  }

  ghost predicate At(s: Outcome, starts: set<nat>) {
    s.Running? ==> Inside(s.pc, starts)
  }

  lemma StepStaysClosed(o: Oracle, code: seq<Word>, starts: set<nat>, s: Outcome)
    requires Closed(code, starts) && At(s, starts)
    ensures At(Step(o, code, s), starts) && (s.Running? ==> Step(o, code, s) != Stuck)
  {
    match s
    case Running(pc, _) => assert SuccessorsIn(code[pc], pc, starts);
    case Halted(_) =>
    case Stuck =>
  }
}
