/** The expanded code simulates the code before: instruction by instruction, and therefore over whole runs. */
module JumpExpandProof {
  import opened JumpCode
  import opened JumpExpand

  /** A step of code whose jumps lead where the table says. */
  function StepByTable(o: Oracle, code: seq<Word>, t: Table, s: Outcome): Outcome {
    if s.Running? then
      if 0 <= s.pc < |code| then StepTo(o, code, s.pc, s.trace, if s.pc in t then t[s.pc] else 0) else Stuck
    else s
  }

  function RunByTable(o: Oracle, code: seq<Word>, t: Table, s: Outcome, n: nat): Outcome
    decreases n
  {
    if n == 0 then s else RunByTable(o, code, t, StepByTable(o, code, t, s), n - 1)
  }

  ghost predicate YieldsByTable(o: Oracle, code: seq<Word>, t: Table, s: Outcome, trace: Trace) {
    exists n: nat :: RunByTable(o, code, t, s, n) == Halted(trace)
  }

  ghost predicate NoneFar(t: Table, lo: nat, hi: nat) {
    forall k: nat :: lo <= k < hi ==> !Far(t, k)
  }

  /** Control never leaves the instructions, and no skip jumps over a trampoline. */
  ghost predicate SkipsClear(code: seq<Word>, starts: set<nat>, t: Table) {
    && (forall pc <- starts :: pc < |code|)
    && forall pc: nat {:trigger SkipClear(code, pc, starts, t)} | pc in starts :: SkipClear(code, pc, starts, t)
  }

  ghost predicate SkipClear(code: seq<Word>, pc: nat, starts: set<nat>, t: Table)
    requires pc < |code|
  {
    var w := code[pc];
    && SecondWordIn(code, pc, starts)
    && (IsFastCall(w.op) ==> pc + C(w) + 2 in starts && NoneFar(t, pc + 1, pc + C(w) + 2))
    && (w.op != LOP_JUMP && w.op != LOP_RETURN ==> AfterSkip(w, pc) in starts && NoneFar(t, pc + 1, AfterSkip(w, pc)))
  }

  /** The new offsets fit their fields. */
  ghost predicate OffsetsFit(t: Table) {
    forall k <- t ::
      if Far(t, k) then Fits24(NewPos(t, t[k]) - NewPos(t, k))
      else !(Offset(t, k) == FAR && AllFar(t, k + 1, t[k] + 1))
  }

  ghost predicate Simulates(code: seq<Word>, starts: set<nat>, t: Table, new_: seq<Word>) {
    && Recorded(code, starts, t) && SkipsClear(code, starts, t) && OffsetsFit(t)
    && Expanded(code, t, new_, |code|, |code|)
  }

  /** Where control is in the new code when it is at `pc` in the old one: behind the trampoline or in front of it. */
  function Boundary(t: Table, pc: nat): nat {
    pc + 2 * FarCount(t, pc)
  }

  function Image(t: Table, s: Outcome): Outcome {
    if s.Running? && s.pc >= 0 then Running(NewPos(t, s.pc), s.trace) else s
  }

  lemma {:induction false} NoneFarCount(t: Table, i: nat, j: nat)
    requires i <= j && NoneFar(t, i, j)
    ensures FarCount(t, j) == FarCount(t, i)
    decreases j
  {
    if i < j {
      NoneFarCount(t, i, j - 1);
    }
  }

  lemma SkipArrives(t: Table, pc: nat, dest: nat)
    requires pc < dest && NoneFar(t, pc + 1, dest)
    ensures NewPos(t, pc) + (dest - pc) == Boundary(t, dest)
  {
    NoneFarCount(t, pc + 1, dest);
  }

  lemma WordMoved(code: seq<Word>, t: Table, new_: seq<Word>, k: nat)
    requires Expanded(code, t, new_, |code|, |code|) && k < |code|
    ensures WordExpanded(code, t, new_, k, |code|)
  {
  }

  /** The same instruction is observed at the new position. */
  lemma SameObserved(code: seq<Word>, starts: set<nat>, t: Table, new_: seq<Word>, pc: nat)
    requires Simulates(code, starts, t, new_) && pc in starts && pc < |code|
    ensures NewPos(t, pc) < |new_| && new_[NewPos(t, pc)] == Repatched(code, t, pc)
    ensures Observed(new_, NewPos(t, pc)) == Observed(code, pc)
  {
    WordMoved(code, t, new_, pc);
    RepatchedKeeps(code, starts, t, pc);
    if OpLength(code[pc].op) == 2 {
      SecondWordMoved(code, starts, t, new_, pc);
    }
    SameWords(code, pc, new_, NewPos(t, pc));
  }

  /** Only jumps get new offsets. */
  lemma RepatchedKeeps(code: seq<Word>, starts: set<nat>, t: Table, pc: nat)
    requires Recorded(code, starts, t) && pc < |code|
    ensures
      var w := Repatched(code, t, pc);
      w.op == code[pc].op && (if IsJumpD(w.op) then w.(hi := 0) == code[pc].(hi := 0) else w == code[pc])
  {
  }

  lemma SecondWordMoved(code: seq<Word>, starts: set<nat>, t: Table, new_: seq<Word>, pc: nat)
    requires Simulates(code, starts, t, new_) && pc in starts && pc < |code| && OpLength(code[pc].op) == 2
    ensures pc + 1 < |code| && NewPos(t, pc) + 1 < |new_| && new_[NewPos(t, pc) + 1] == code[pc + 1]
  {
    assert SkipClear(code, pc, starts, t);
    assert pc + 1 !in t;
    WordMoved(code, t, new_, pc + 1);
    assert NewPos(t, pc + 1) == NewPos(t, pc) + 1;
  }

  lemma SameWords(code: seq<Word>, pc: nat, code': seq<Word>, pc': nat)
    requires pc < |code| && pc' < |code'|
    requires
      var w, w' := code[pc], code'[pc'];
      w'.op == w.op && (if IsJumpD(w.op) then w'.(hi := 0) == w.(hi := 0) else w' == w)
    requires OpLength(code[pc].op) == 2 ==> pc + 1 < |code| && pc' + 1 < |code'| && code'[pc' + 1] == code[pc + 1]
    ensures Observed(code', pc') == Observed(code, pc)
  {
  }

  /** In front of a trampoline, the plain jump leads over it. */
  lemma OverTrampoline(o: Oracle, code: seq<Word>, t: Table, new_: seq<Word>, pc: nat, trace: Trace) returns (k: nat)
    requires Expanded(code, t, new_, |code|, |code|) && pc < |code|
    ensures Run(o, new_, Running(Boundary(t, pc), trace), k) == Running(NewPos(t, pc), trace)
  {
    WordMoved(code, t, new_, pc);
    k := 0;
    if Far(t, pc) {
      k := 1;
      var at := Boundary(t, pc);
      assert new_[at] == OverLongJump(code[pc].line);
      assert D(new_[at]) == 1;
      assert Run(o, new_, Running(at, trace), 1) == Step(o, new_, Running(at, trace));
    }
  }

  /** One instruction at two places: the same effect, and the same distance when control goes on. */
  lemma SameEffect(o: Oracle, code: seq<Word>, pc: nat, new_: seq<Word>, at: nat, trace: Trace, d: int, e: int) returns (dest: nat)
    requires pc < |code| && at < |new_| && new_[at] == code[pc] && Observed(new_, at) == Observed(code, pc)
    requires !IsJumpD(code[pc].op) && code[pc].op != LOP_JUMPX
    ensures
      var w := code[pc];
      var a, b := StepTo(o, code, pc, trace, d), StepTo(o, new_, at, trace, e);
      || (a.Halted? && b == a)
      || (&& a == Running(dest, a.trace) && b == Running(at + (dest - pc), a.trace)
          && ((IsFastCall(w.op) && dest == pc + C(w) + 2) || (w.op != LOP_RETURN && dest == AfterSkip(w, pc))))
  {
    var a := StepTo(o, code, pc, trace, d);
    dest := if a.Running? && a.pc >= 0 then a.pc else 0;
  }

  ghost predicate Moved(code: seq<Word>, t: Table, new_: seq<Word>, pc: nat)
    requires pc < |code|
  {
    && NewPos(t, pc) < |new_|
    && new_[NewPos(t, pc)] == Repatched(code, t, pc)
    && Observed(new_, NewPos(t, pc)) == Observed(code, pc)
  }

  lemma OrdinaryAt(o: Oracle, code: seq<Word>, starts: set<nat>, t: Table, new_: seq<Word>, pc: nat, trace: Trace)
    requires pc < |code| && Moved(code, t, new_, pc) && SkipClear(code, pc, starts, t)
    requires pc !in t && !IsJumpD(code[pc].op) && code[pc].op != LOP_JUMPX
    ensures
      var a := StepByTable(o, code, t, Running(pc, trace));
      var b := Step(o, new_, Running(NewPos(t, pc), trace));
      if a.Running? then Inside(a.pc, starts) && b == Running(Boundary(t, a.pc), a.trace) else a.Halted? && b == a
  {
    var w, at := code[pc], NewPos(t, pc);
    var dest := SameEffect(o, code, pc, new_, at, trace, 0, at + 1 + D(new_[at]));
    if StepTo(o, code, pc, trace, 0).Running? {
      SkipArrives(t, pc, dest);
    }
  }

  /** A jump that keeps its place and leads to the new position of its destination. */
  lemma NearAt(o: Oracle, code: seq<Word>, starts: set<nat>, t: Table, new_: seq<Word>, pc: nat, trace: Trace)
    requires pc < |code| && Moved(code, t, new_, pc) && SkipClear(code, pc, starts, t)
    requires pc in t && IsJumpD(code[pc].op) && !Far(t, pc) && t[pc] in starts
    requires !(Offset(t, pc) == FAR && AllFar(t, pc + 1, t[pc] + 1))
    ensures
      var a := StepByTable(o, code, t, Running(pc, trace));
      var b := Step(o, new_, Running(NewPos(t, pc), trace));
      || (a.Halted? && b == a)
      || (a.Running? && Inside(a.pc, starts) && b in {Running(Boundary(t, a.pc), a.trace), Running(NewPos(t, a.pc), a.trace)})
  {
    var at := NewPos(t, pc);
    NearStillFits(t, pc);
    FieldsReadBack(code[pc], NewPos(t, t[pc]) - at - 1);
    var fall := JumpEffect(o, code, pc, new_, at, trace, t[pc], NewPos(t, t[pc]));
    SkipArrives(t, pc, fall);
  }

  /** A jump at two places: the same mark on the trace, and the destinations given, or the next instruction. */
  lemma JumpEffect(o: Oracle, code: seq<Word>, pc: nat, new_: seq<Word>, at: nat, trace: Trace, d: int, e: int) returns (fall: nat)
    requires pc < |code| && at < |new_| && new_[at].op == code[pc].op && Observed(new_, at) == Observed(code, pc)
    requires IsJumpD(code[pc].op)
    ensures fall == pc + OpLength(code[pc].op)
    ensures
      var w := code[pc];
      var a, b := StepTo(o, code, pc, trace, d), StepTo(o, new_, at, trace, e);
      || (a.Halted? && b == a)
      || (a.Running? && a.pc == d && b == Running(e, a.trace))
      || (a.Running? && w.op != LOP_JUMP && a.pc == AfterSkip(w, pc) && b == Running(at + (AfterSkip(w, pc) - pc), a.trace))
  {
    fall := pc + OpLength(code[pc].op);
  }

  /** A far jump goes two words back, to the long jump in front of it. */
  lemma FarAt(o: Oracle, code: seq<Word>, starts: set<nat>, t: Table, new_: seq<Word>, pc: nat, trace: Trace)
    requires pc < |code| && Moved(code, t, new_, pc) && SkipClear(code, pc, starts, t)
    requires Far(t, pc) && IsJumpD(code[pc].op) && t[pc] in starts
    ensures
      var a := StepByTable(o, code, t, Running(pc, trace));
      var b := Step(o, new_, Running(NewPos(t, pc), trace));
      || (a.Halted? && b == a)
      || (a.Running? && Inside(a.pc, starts) && b == Running(Boundary(t, a.pc), a.trace))
      || (a.Running? && a.pc == t[pc] && b == Running(NewPos(t, pc) - 1, a.trace))
  {
    var at := NewPos(t, pc);
    FieldsReadBack(code[pc], -2);
    var fall := JumpEffect(o, code, pc, new_, at, trace, t[pc], at - 1);
    SkipArrives(t, pc, fall);
  }

  lemma LongJumpRuns(o: Oracle, code: seq<Word>, t: Table, new_: seq<Word>, pc: nat, trace: Trace)
    requires pc < |code| && WordExpanded(code, t, new_, pc, |code|) && Far(t, pc)
    requires Fits24(NewPos(t, t[pc]) - NewPos(t, pc))
    ensures Run(o, new_, Running(NewPos(t, pc) - 1, trace), 1) == Running(NewPos(t, t[pc]), trace)
  {
    var at := NewPos(t, pc) - 1;
    var offset := NewPos(t, t[pc]) - NewPos(t, pc);
    FieldsReadBack(Word(LOP_JUMPX, 0, 0, code[pc].line), offset);
    assert E(new_[at]) == offset;
    assert Run(o, new_, Running(at, trace), 1) == Step(o, new_, Running(at, trace));
  }

  /** What is known of the instruction at `pc`. */
  lemma At(code: seq<Word>, starts: set<nat>, t: Table, new_: seq<Word>, pc: nat)
    requires Simulates(code, starts, t, new_) && pc in starts
    ensures pc < |code| && Moved(code, t, new_, pc) && SkipClear(code, pc, starts, t) && WordExpanded(code, t, new_, pc, |code|)
    ensures code[pc].op != LOP_JUMPX && (IsJumpD(code[pc].op) <==> pc in t)
    ensures pc in t ==> t[pc] in starts
    ensures pc in t ==>
      if Far(t, pc) then Fits24(NewPos(t, t[pc]) - NewPos(t, pc))
      else !(Offset(t, pc) == FAR && AllFar(t, pc + 1, t[pc] + 1))
  {
    SameObserved(code, starts, t, new_, pc);
    WordMoved(code, t, new_, pc);
  }

  /** One instruction of the old code is one of the new code, and at most two silent jumps. */
  lemma ExpandedStep(o: Oracle, code: seq<Word>, starts: set<nat>, t: Table, new_: seq<Word>, s: Outcome) returns (k: nat)
    requires Simulates(code, starts, t, new_) && s.Running? && Inside(s.pc, starts)
    ensures
      var a := StepByTable(o, code, t, s);
      Run(o, new_, Image(t, s), k + 1) == Image(t, a) && (a.Halted? || (a.Running? && Inside(a.pc, starts)))
  {
    var pc, trace := s.pc, s.trace;
    At(code, starts, t, new_, pc);
    var a := StepByTable(o, code, t, s);
    var b := Step(o, new_, Image(t, s));
    if pc !in t {
      OrdinaryAt(o, code, starts, t, new_, pc, trace);
    } else if Far(t, pc) {
      FarAt(o, code, starts, t, new_, pc, trace);
    } else {
      NearAt(o, code, starts, t, new_, pc, trace);
    }
    k := Arrive(o, code, starts, t, new_, pc, a, b);
    RunSplit(o, new_, Image(t, s), 1, k);
    assert Run(o, new_, Image(t, s), 1) == b;
  }

  lemma Arrive(o: Oracle, code: seq<Word>, starts: set<nat>, t: Table, new_: seq<Word>, pc: nat, a: Outcome, b: Outcome) returns (k: nat)
    requires Simulates(code, starts, t, new_) && pc in starts
    requires
      || (a.Halted? && b == a)
      || (a.Running? && Inside(a.pc, starts) && b in {Running(Boundary(t, a.pc), a.trace), Running(NewPos(t, a.pc), a.trace)})
      || (a.Running? && Far(t, pc) && a.pc == t[pc] && b == Running(NewPos(t, pc) - 1, a.trace))
    ensures Run(o, new_, b, k) == Image(t, a) && (a.Halted? || (a.Running? && Inside(a.pc, starts)))
  {
    At(code, starts, t, new_, pc);
    k := 0;
    if a.Running? && b != Image(t, a) {
      if Inside(a.pc, starts) && b == Running(Boundary(t, a.pc), a.trace) {
        At(code, starts, t, new_, a.pc);
        k := OverTrampoline(o, code, t, new_, a.pc, a.trace);
      } else {
        k := 1;
        LongJumpRuns(o, code, t, new_, pc, a.trace);
      }
    }
  }

  lemma {:induction false} RunsForward(o: Oracle, code: seq<Word>, starts: set<nat>, t: Table, new_: seq<Word>, s: Outcome, n: nat, r: Trace)
    requires Simulates(code, starts, t, new_) && (s.Running? ==> Inside(s.pc, starts))
    requires RunByTable(o, code, t, s, n) == Halted(r)
    ensures Yields(o, new_, Image(t, s), r)
    decreases n
  {
    if n == 0 || !s.Running? {
      if n > 0 {
        RunsForward(o, code, starts, t, new_, s, n - 1, r);
      }
      assert n == 0 ==> Run(o, new_, Image(t, s), 0) == Halted(r);
    } else {
      var a := StepByTable(o, code, t, s);
      var k := ExpandedStep(o, code, starts, t, new_, s);
      RunsForward(o, code, starts, t, new_, a, n - 1, r);
      var q: nat :| Run(o, new_, Image(t, a), q) == Halted(r);
      RunSplit(o, new_, Image(t, s), k + 1, q);
    }
  }

  lemma TakesAStep(o: Oracle, code: seq<Word>, t: Table, new_: seq<Word>, s: Outcome, n: nat, r: Trace)
    requires s.Running? && s.pc >= 0 && Run(o, new_, Image(t, s), n) == Halted(r)
    ensures n > 0
  {
  }

  lemma {:induction false} RunsBackward(o: Oracle, code: seq<Word>, starts: set<nat>, t: Table, new_: seq<Word>, s: Outcome, n: nat, r: Trace)
    requires Simulates(code, starts, t, new_) && (s.Running? ==> Inside(s.pc, starts))
    requires Run(o, new_, Image(t, s), n) == Halted(r)
    ensures YieldsByTable(o, code, t, s, r)
    decreases n
  {
    if s.Running? {
      TakesAStep(o, code, t, new_, s, n, r);
      var k := ExpandedStep(o, code, starts, t, new_, s);
      var m := HaltsAfter(o, new_, Image(t, s), k + 1, n, r);
      RunsBackward(o, code, starts, t, new_, StepByTable(o, code, t, s), m, r);
      StepBefore(o, code, t, s, r);
    } else {
      Settled(o, new_, s, n);
      assert RunByTable(o, code, t, s, 0) == Halted(r);
    }
  }

  lemma StepBefore(o: Oracle, code: seq<Word>, t: Table, s: Outcome, r: Trace)
    requires YieldsByTable(o, code, t, StepByTable(o, code, t, s), r)
    ensures YieldsByTable(o, code, t, s, r)
  {
    var q: nat :| RunByTable(o, code, t, StepByTable(o, code, t, s), q) == Halted(r);
    assert RunByTable(o, code, t, s, q + 1) == Halted(r);
  }

  /**
   The expanded code halts with a trace exactly if the code before does, from the first instruction and from
   the new position of any other.
   */
  lemma ExpansionPreserves(o: Oracle, code: seq<Word>, starts: set<nat>, t: Table, new_: seq<Word>, s: Outcome, r: Trace)
    requires Simulates(code, starts, t, new_) && s.Running? && Inside(s.pc, starts)
    ensures YieldsByTable(o, code, t, s, r) <==> Yields(o, new_, Image(t, s), r)
    ensures s.pc == 0 ==> (YieldsByTable(o, code, t, s, r) <==> Yields(o, new_, s, r))
  {
    if YieldsByTable(o, code, t, s, r) {
      var n: nat :| RunByTable(o, code, t, s, n) == Halted(r);
      RunsForward(o, code, starts, t, new_, s, n, r);
    }
    if Yields(o, new_, Image(t, s), r) {
      var n: nat :| Run(o, new_, Image(t, s), n) == Halted(r);
      RunsBackward(o, code, starts, t, new_, s, n, r);
    }
    if s.pc == 0 {
      At(code, starts, t, new_, 0);
      var k := OverTrampoline(o, code, t, new_, 0, s.trace);
      SameYield(o, new_, s, k, r);
    }
  }

  // ----- code without long jumps -----

  ghost predicate CarriesOffsets(code: seq<Word>, t: Table) {
    forall k <- t :: k < |code| && D(code[k]) == Offset(t, k)
  }

  lemma TableAgrees(o: Oracle, code: seq<Word>, starts: set<nat>, t: Table, s: Outcome)
    requires Recorded(code, starts, t) && CarriesOffsets(code, t) && (s.Running? ==> Inside(s.pc, starts))
    ensures StepByTable(o, code, t, s) == Step(o, code, s)
  {
  }

  lemma {:induction false} RunsAgree(o: Oracle, code: seq<Word>, starts: set<nat>, t: Table, s: Outcome, n: nat)
    requires Recorded(code, starts, t) && CarriesOffsets(code, t) && Closed(code, starts) && JumpCode.At(s, starts)
    ensures RunByTable(o, code, t, s, n) == Run(o, code, s, n)
    decreases n
  {
    if n > 0 {
      TableAgrees(o, code, starts, t, s);
      StepStaysClosed(o, code, starts, s);
      RunsAgree(o, code, starts, t, Step(o, code, s), n - 1);
    }
  }

  /** When every offset fits its field, the table and the offsets describe the same runs. */
  lemma YieldsAgree(o: Oracle, code: seq<Word>, starts: set<nat>, t: Table, s: Outcome, r: Trace)
    requires Recorded(code, starts, t) && CarriesOffsets(code, t) && Closed(code, starts) && JumpCode.At(s, starts)
    ensures YieldsByTable(o, code, t, s, r) <==> Yields(o, code, s, r)
  {
    forall n: nat {
      RunsAgree(o, code, starts, t, s, n);
    }
    if YieldsByTable(o, code, t, s, r) {
      var n: nat :| RunByTable(o, code, t, s, n) == Halted(r);
      assert Run(o, code, s, n) == Halted(r);
    }
    if Yields(o, code, s, r) {
      var n: nat :| Run(o, code, s, n) == Halted(r);
      assert RunByTable(o, code, t, s, n) == Halted(r);
    }
  }
}
