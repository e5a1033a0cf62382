/** Retargeting jumps past the plain jumps they lead to keeps every halting run. */
module JumpFold {
  import opened JumpCode

  predicate Forwards(code: seq<Word>, at: nat)
    requires at < |code|
  {
    code[at].op == LOP_JUMP && D(code[at]) >= 0
  }

  /** Where a chain of forward plain jumps ends; only forward ones are followed, so it does end. */
  function Follow(code: seq<Word>, at: nat): (last: nat)
    requires at < |code|
    ensures at <= last < |code|
    decreases |code| - at
  {
    if Forwards(code, at) && at + 1 + D(code[at]) < |code| then Follow(code, at + 1 + D(code[at])) else at
  }

  function Destination(code: seq<Word>, source: nat): int
    requires source < |code|
  {
    source + 1 + D(code[source])
  }

  /** The code after one jump is folded. */
  function FoldOne(code: seq<Word>, source: nat): (r: seq<Word>)
    requires source < |code| && 0 <= Destination(code, source) < |code|
    ensures |r| == |code|
  {
    var last := Follow(code, Destination(code, source));
    var offset := last - source - 1;
    if code[source].op == LOP_JUMP && code[last].op == LOP_RETURN then code[source := code[last]]
    else if Fits16(offset) then code[source := SetD(code[source], offset)]
    else code
  }

  /**
   What becomes of a jump whose chain ends at `last`: a plain one that leads to a return becomes that return, any other one
   leads straight to the end of the chain if that is near enough, and is left alone if it is not.
   */
  predicate FoldedTo(code: seq<Word>, source: nat, last: nat, w: Word)
    requires source < |code| && last < |code|
  {
    if code[source].op == LOP_JUMP && code[last].op == LOP_RETURN then w == code[last]
    else if Fits16(last - source - 1) then w == code[source].(hi := w.hi) && source + 1 + D(w) == last
    else w == code[source]
  }

  /** Folding a jump leads it to the end of its chain, and changes nothing else. */
  lemma FoldedLeadsToEnd(code: seq<Word>, source: nat)
    requires InRange(code, source)
    ensures FoldedTo(code, source, Follow(code, Destination(code, source)), FoldOne(code, source)[source])
    ensures forall x: nat :: x < |code| && x != source ==> FoldOne(code, source)[x] == code[x]
  {
    FieldsReadBack(code[source], Follow(code, Destination(code, source)) - source - 1);
  }

  /** The chain is executed silently, from its start to its end. */
  lemma {:induction false} ChainRuns(o: Oracle, code: seq<Word>, starts: set<nat>, at: nat, trace: Trace) returns (k: nat)
    requires Closed(code, starts) && at in starts
    ensures Run(o, code, Running(at, trace), k) == Running(Follow(code, at), trace) && Follow(code, at) in starts
    decreases |code| - at
  {
    if Forwards(code, at) && at + 1 + D(code[at]) < |code| {
      assert SuccessorsIn(code[at], at, starts);
      var k' := ChainRuns(o, code, starts, at + 1 + D(code[at]), trace);
      k := k' + 1;
    } else {
      k := 0;
    }
  }

  ghost predicate Foldable(code: seq<Word>, starts: set<nat>, source: nat) {
    && Closed(code, starts)
    && source in starts && source < |code| && IsJumpD(code[source].op)
    && Inside(Destination(code, source), starts) && Destination(code, source) < |code|
  }

  lemma JumpIsFoldable(code: seq<Word>, starts: set<nat>, source: nat)
    requires Closed(code, starts) && source in starts && source < |code| && IsJumpD(code[source].op)
    ensures Foldable(code, starts, source)
  {
    assert SuccessorsIn(code[source], source, starts);
    assert Destination(code, source) in starts;
  }

  /** A word keeps its place in the code when its jump is led to another instruction. */
  lemma RetargetedWord(w: Word, pc: nat, offset: int, starts: set<nat>)
    requires IsJumpD(w.op) && SuccessorsIn(w, pc, starts) && Fits16(offset) && Inside(pc + 1 + offset, starts)
    ensures SuccessorsIn(SetD(w, offset), pc, starts)
  {
    FieldsReadBack(w, offset);
    assert !IsFastCall(w.op) && w.op != LOP_JUMPX && w.op != LOP_LOADB;
    assert AfterSkip(SetD(w, offset), pc) == AfterSkip(w, pc);
  }

  lemma FoldedWord(code: seq<Word>, starts: set<nat>, source: nat)
    requires Foldable(code, starts, source)
    ensures
      var w := FoldOne(code, source)[source];
      && SuccessorsIn(w, source, starts)
      && (w.op == code[source].op || OpLength(w.op) == 1)
  {
    assert SuccessorsIn(code[source], source, starts);
    var first := Destination(code, source);
    FollowIn(code, starts, first);
    var offset := Follow(code, first) - source - 1;
    if Fits16(offset) {
      RetargetedWord(code[source], source, offset, starts);
    }
  }

  lemma {:induction false} FollowIn(code: seq<Word>, starts: set<nat>, at: nat)
    requires Closed(code, starts) && at in starts
    ensures Follow(code, at) in starts
    decreases |code| - at
  {
    if Forwards(code, at) && at + 1 + D(code[at]) < |code| {
      assert SuccessorsIn(code[at], at, starts);
      FollowIn(code, starts, at + 1 + D(code[at]));
    }
  }

  lemma FoldOneClosed(code: seq<Word>, starts: set<nat>, source: nat)
    requires Foldable(code, starts, source)
    ensures Closed(FoldOne(code, source), starts)
  {
    FoldedWord(code, starts, source);
    var code' := FoldOne(code, source);
    forall pc <- starts
      ensures SuccessorsIn(code'[pc], pc, starts) && SecondWordIn(code', pc, starts)
    {
      assert pc < |code| && SuccessorsIn(code[pc], pc, starts) && SecondWordIn(code, pc, starts);
      if pc != source {
        assert code'[pc] == code[pc];
      }
    }
  }

  /** Two jumps that differ in their destination only: the same effect, or two ends of one branch. */
  lemma TwoDestinations(o: Oracle, code: seq<Word>, pc: nat, w: Word, trace: Trace) returns (t: Trace)
    requires pc < |code| && IsJumpD(code[pc].op) && w == code[pc].(hi := w.hi)
    ensures
      var code' := code[pc := w];
      var a, b := Step(o, code, Running(pc, trace)), Step(o, code', Running(pc, trace));
      a == b || (a == Running(Destination(code, pc), t) && b == Running(Destination(code', pc), t))
  {
    var code' := code[pc := w];
    assert Observed(code', pc) == Observed(code, pc);
    assert !IsFastCall(w.op) && w.op != LOP_JUMPX && w.op != LOP_LOADB;
    t := if w.op == LOP_JUMP then trace else trace + [Observed(code, pc)];
  }

  lemma CatchUp(o: Oracle, code: seq<Word>, starts: set<nat>, at: nat, a: Outcome, b: Outcome, t: Trace) returns (k: nat)
    requires Closed(code, starts) && at in starts
    requires a == b || (a == Running(at, t) && b == Running(Follow(code, at), t))
    ensures Run(o, code, a, k) == b
  {
    if a == b {
      k := 0;
    } else {
      k := ChainRuns(o, code, starts, at, t);
    }
  }

  /** Where the folded jump gets in one step, the original one gets too, in one step and then the chain. */
  lemma FoldedStep(o: Oracle, code: seq<Word>, starts: set<nat>, source: nat, trace: Trace) returns (k: nat)
    requires Foldable(code, starts, source)
    ensures
      var s := Running(source, trace);
      Run(o, code, Step(o, code, s), k) == Step(o, FoldOne(code, source), s)
  {
    var first := Destination(code, source);
    var last := Follow(code, first);
    var offset := last - source - 1;
    var s := Running(source, trace);
    if code[source].op == LOP_JUMP && code[last].op == LOP_RETURN {
      k := ReturnStep(o, code, starts, source, trace);
    } else if Fits16(offset) {
      var w := SetD(code[source], offset);
      FieldsReadBack(code[source], offset);
      var t := TwoDestinations(o, code, source, w, trace);
      k := CatchUp(o, code, starts, first, Step(o, code, s), Step(o, code[source := w], s), t);
    } else {
      k := CatchUp(o, code, starts, first, Step(o, code, s), Step(o, code, s), trace);
    }
  }

  /** The return that replaces a plain jump has the effect of the one at the end of the chain. */
  lemma ReturnStep(o: Oracle, code: seq<Word>, starts: set<nat>, source: nat, trace: Trace) returns (k: nat)
    requires Foldable(code, starts, source) && code[source].op == LOP_JUMP
    requires code[Follow(code, Destination(code, source))].op == LOP_RETURN
    ensures
      var s := Running(source, trace);
      Run(o, code, Step(o, code, s), k) == Step(o, FoldOne(code, source), s)
  {
    var first := Destination(code, source);
    var last := Follow(code, first);
    var j := ChainRuns(o, code, starts, first, trace);
    var code' := code[source := code[last]];
    assert code' == FoldOne(code, source);
    assert Observed(code', source) == Observed(code, last);
    assert Step(o, code, Running(source, trace)) == Running(first, trace);
    RunSplit(o, code, Running(first, trace), j, 1);
    k := j + 1;
    assert Run(o, code, Running(last, trace), 1) == Step(o, code, Running(last, trace));
  }

  /** Other instructions are not affected. */
  lemma OtherStep(o: Oracle, code: seq<Word>, starts: set<nat>, source: nat, s: Outcome)
    requires Foldable(code, starts, source)
    requires At(s, starts) && !(s.Running? && s.pc == source)
    ensures Step(o, FoldOne(code, source), s) == Step(o, code, s)
  {
    match s
    case Running(pc, trace) =>
      OtherWords(code, starts, source, pc);
      SameWords(o, code, FoldOne(code, source), pc, trace);
    case Halted(_) =>
    case Stuck =>
  }

  lemma OtherWords(code: seq<Word>, starts: set<nat>, source: nat, pc: nat)
    requires Foldable(code, starts, source) && pc in starts && pc != source
    ensures pc < |code| == |FoldOne(code, source)| && FoldOne(code, source)[pc] == code[pc]
    ensures OpLength(code[pc].op) == 2 && pc + 1 < |code| ==> FoldOne(code, source)[pc + 1] == code[pc + 1]
  {
    assert SecondWordIn(code, pc, starts);
  }

  /** What an instruction does depends on its own words only. */
  lemma SameWords(o: Oracle, code: seq<Word>, code': seq<Word>, pc: nat, trace: Trace)
    requires pc < |code| == |code'| && code'[pc] == code[pc]
    requires OpLength(code[pc].op) == 2 && pc + 1 < |code| ==> code'[pc + 1] == code[pc + 1]
    ensures Step(o, code', Running(pc, trace)) == Step(o, code, Running(pc, trace))
  {
    assert Observed(code', pc) == Observed(code, pc);
  }

  lemma {:induction false} FoldKeepsForward(o: Oracle, code: seq<Word>, starts: set<nat>, source: nat, s: Outcome, n: nat, t: Trace)
    requires Foldable(code, starts, source) && At(s, starts) && Run(o, code, s, n) == Halted(t)
    ensures Yields(o, FoldOne(code, source), s, t)
    decreases n
  {
    var code' := FoldOne(code, source);
    if s.Halted? {
      Settled(o, code, s, n);
      assert Run(o, code', s, 0) == Halted(t);
    } else {
      var next := Step(o, code', s);
      var m: nat;
      if s.Running? && s.pc == source {
        var k := FoldedStep(o, code, starts, source, s.trace);
        m := HaltsAfter(o, code, Step(o, code, s), k, n - 1, t);
      } else {
        OtherStep(o, code, starts, source, s);
        m := n - 1;
      }
      FoldOneClosed(code, starts, source);
      StepStaysClosed(o, code', starts, s);
      FoldKeepsForward(o, code, starts, source, next, m, t);
      var q: nat :| Run(o, code', next, q) == Halted(t);
      assert Run(o, code', s, q + 1) == Halted(t);
    }
  }

  lemma {:induction false} FoldKeepsBackward(o: Oracle, code: seq<Word>, starts: set<nat>, source: nat, s: Outcome, n: nat, t: Trace)
    requires Foldable(code, starts, source) && At(s, starts)
    requires Run(o, FoldOne(code, source), s, n) == Halted(t)
    ensures Yields(o, code, s, t)
    decreases n
  {
    var code' := FoldOne(code, source);
    if n == 0 {
      assert Run(o, code, s, 0) == Halted(t);
    } else {
      var next := Step(o, code', s);
      FoldOneClosed(code, starts, source);
      StepStaysClosed(o, code', starts, s);
      FoldKeepsBackward(o, code, starts, source, next, n - 1, t);
      var q: nat :| Run(o, code, next, q) == Halted(t);
      if s.Running? && s.pc == source {
        var k := FoldedStep(o, code, starts, source, s.trace);
        RunSplit(o, code, Step(o, code, s), k, q);
        assert Run(o, code, s, k + q + 1) == Halted(t);
      } else {
        OtherStep(o, code, starts, source, s);
        assert Run(o, code, s, q + 1) == Halted(t);
      }
    }
  }

  /** Folding one jump changes no trace that the code yields, from any instruction. */
  lemma FoldOnePreserves(o: Oracle, code: seq<Word>, starts: set<nat>, source: nat, s: Outcome, t: Trace)
    requires Foldable(code, starts, source) && At(s, starts)
    ensures Yields(o, code, s, t) <==> Yields(o, FoldOne(code, source), s, t)
  {
    if Yields(o, code, s, t) {
      var n: nat :| Run(o, code, s, n) == Halted(t);
      FoldKeepsForward(o, code, starts, source, s, n, t);
    }
    if Yields(o, FoldOne(code, source), s, t) {
      var n: nat :| Run(o, FoldOne(code, source), s, n) == Halted(t);
      FoldKeepsBackward(o, code, starts, source, s, n, t);
    }
  }

  // ----- the whole list -----

  predicate InRange(code: seq<Word>, source: nat) {
    source < |code| && 0 <= Destination(code, source) < |code|
  }

  /** The code after the jumps at `sources` were folded, in that order. */
  function FoldAll(code: seq<Word>, sources: seq<nat>): (r: seq<Word>)
    ensures |r| == |code|
    decreases |sources|
  {
    if sources == [] then code else
      var last := |sources| - 1;
      var c := FoldAll(code, sources[..last]);
      if InRange(c, sources[last]) then FoldOne(c, sources[last]) else c
  }

  ghost predicate AllJumps(code: seq<Word>, starts: set<nat>, sources: seq<nat>) {
    && Closed(code, starts)
    && (forall x <- sources :: x in starts && x < |code| && IsJumpD(code[x].op))
    && (forall i, j :: 0 <= i < j < |sources| ==> sources[i] != sources[j])
  }

  lemma AllJumpsPrefix(code: seq<Word>, starts: set<nat>, sources: seq<nat>)
    requires AllJumps(code, starts, sources) && sources != []
    ensures AllJumps(code, starts, sources[..|sources| - 1])
    ensures
      var last := sources[|sources| - 1];
      last !in sources[..|sources| - 1] && last in starts && last < |code| && IsJumpD(code[last].op)
  {
    assert sources[|sources| - 1] in sources;
    assert forall x <- sources[..|sources| - 1] :: x in sources;
  }

  lemma OthersUnchanged(code: seq<Word>, source: nat, x: nat)
    requires InRange(code, source) && x < |code| && x != source
    ensures FoldOne(code, source)[x] == code[x]
  {
  }

  /** Each jump is still the original one when its turn comes. */
  lemma {:induction false} FoldAllReady(code: seq<Word>, starts: set<nat>, sources: seq<nat>)
    requires AllJumps(code, starts, sources)
    ensures Closed(FoldAll(code, sources), starts)
    ensures forall x: nat :: x < |code| && x !in sources ==> FoldAll(code, sources)[x] == code[x]
    ensures |sources| > 0 ==> Foldable(FoldAll(code, sources[..|sources| - 1]), starts, sources[|sources| - 1])
    decreases |sources|
  {
    if sources != [] {
      var n := |sources| - 1;
      var before, last := sources[..n], sources[n];
      AllJumpsPrefix(code, starts, sources);
      FoldAllReady(code, starts, before);
      var c := FoldAll(code, before);
      JumpIsFoldable(c, starts, last);
      FoldOneClosed(c, starts, last);
      assert FoldAll(code, sources) == FoldOne(c, last);
      forall x: nat | x < |code| && x !in sources
        ensures FoldOne(c, last)[x] == code[x]
      {
        assert last in sources && x !in before;
        OthersUnchanged(c, last, x);
      }
    }
  }

  /** Once its turn has come, a jump stays as it is: each one leads where its chain ended at that time. */
  lemma {:induction false} AllLeadToEnds(code: seq<Word>, starts: set<nat>, sources: seq<nat>, i: nat)
    requires AllJumps(code, starts, sources) && i < |sources|
    ensures
      var c := FoldAll(code, sources[..i]);
      && InRange(c, sources[i])
      && FoldedTo(c, sources[i], Follow(c, Destination(c, sources[i])), FoldAll(code, sources)[sources[i]])
    decreases |sources|
  {
    var n := |sources| - 1;
    FoldAllReady(code, starts, sources);
    var c := FoldAll(code, sources[..n]);
    if i == n {
      FoldedLeadsToEnd(c, sources[n]);
    } else {
      AllJumpsPrefix(code, starts, sources);
      AllLeadToEnds(code, starts, sources[..n], i);
      assert sources[..n][..i] == sources[..i] && sources[..n][i] == sources[i];
      OthersUnchanged(c, sources[n], sources[i]);
    }
  }

  /** Folding every jump, in any order, changes no trace that the code yields from any of its instructions. */
  lemma {:induction false} FoldAllPreserves(o: Oracle, code: seq<Word>, starts: set<nat>, sources: seq<nat>, s: Outcome, t: Trace)
    requires AllJumps(code, starts, sources) && At(s, starts)
    ensures Yields(o, code, s, t) <==> Yields(o, FoldAll(code, sources), s, t)
    decreases |sources|
  {
    if sources != [] {
      var last := |sources| - 1;
      FoldAllReady(code, starts, sources);
      FoldAllPreserves(o, code, starts, sources[..last], s, t);
      FoldOnePreserves(o, FoldAll(code, sources[..last]), starts, sources[last], s, t);
    }
  }

  // ----- where chains end -----

  /** The ends of two chains: one place, or two copies of one return. */
  predicate SameEnd(code: seq<Word>, at: nat, code': seq<Word>, at': nat)
    requires at < |code| && at' < |code'|
  {
    && code'[at'].op == code[at].op
    && if code[at].op == LOP_RETURN then code'[at'] == code[at] else at' == at
  }

  /** A backward plain jump whose own chain leads to a return, or forward again past the jump itself. */
  predicate Turns(code: seq<Word>, source: nat)
    requires InRange(code, source)
  {
    var last := Follow(code, Destination(code, source));
    && code[source].op == LOP_JUMP && D(code[source]) < 0
    && (code[last].op == LOP_RETURN || (last > source && Fits16(last - source - 1)))
  }

  /** Folding a jump moves the end of a chain exactly when the chain ended at that jump and the jump turns. */
  lemma {:induction false} FollowKept(code: seq<Word>, source: nat, at: nat)
    requires InRange(code, source) && at < |code| && IsJumpD(code[source].op)
    ensures SameEnd(code, Follow(code, at), FoldOne(code, source), Follow(FoldOne(code, source), at)) <==>
            !(Turns(code, source) && Follow(code, at) == source)
    decreases |code| - at
  {
    var code' := FoldOne(code, source);
    if at != source {
      assert code'[at] == code[at];
      if Forwards(code, at) && Destination(code, at) < |code| {
        FollowKept(code, source, Destination(code, at));
      }
    } else if code[source].op == LOP_JUMP && D(code[source]) < 0 {
      BackwardEnd(code, source);
    } else if code[source].op == LOP_JUMP {
      FieldsReadBack(code[source], Follow(code, Destination(code, source)) - source - 1);
      FollowTwice(code, Destination(code, source));
    }
  }

  /** A chain that ends at the backward jump itself. */
  lemma BackwardEnd(code: seq<Word>, source: nat)
    requires InRange(code, source) && code[source].op == LOP_JUMP && D(code[source]) < 0
    ensures Follow(code, source) == source
    ensures SameEnd(code, source, FoldOne(code, source), Follow(FoldOne(code, source), source)) <==> !Turns(code, source)
  {
    var last := Follow(code, Destination(code, source));
    FieldsReadBack(code[source], last - source - 1);
    FollowTwice(code, Destination(code, source));
    if last > source {
      assert FoldOne(code, source)[last] == code[last];
    }
  }

  lemma {:induction false} FollowTwice(code: seq<Word>, at: nat)
    requires at < |code|
    ensures Follow(code, Follow(code, at)) == Follow(code, at)
    decreases |code| - at
  {
    if Forwards(code, at) && Destination(code, at) < |code| {
      FollowTwice(code, Destination(code, at));
    }
  }

  /** From `at` a chain of forward plain jumps leads to `last`. */
  predicate Leads(code: seq<Word>, at: nat, last: nat)
    decreases |code| - at
  {
    at < |code| &&
    (at == last || (code[at].op == LOP_JUMP && D(code[at]) >= 0 && Leads(code, at + 1 + D(code[at]), last)))
  }

  /** The end of a chain is led to, and leads no further. */
  lemma {:induction false} ChainEnd(code: seq<Word>, at: nat)
    requires at < |code|
    ensures Leads(code, at, Follow(code, at))
    ensures
      var w := code[Follow(code, at)];
      w.op == LOP_JUMP && D(w) >= 0 ==> Follow(code, at) + 1 + D(w) >= |code|
    decreases |code| - at
  {
    if Forwards(code, at) && Destination(code, at) < |code| {
      ChainEnd(code, Destination(code, at));
    }
  }

  /** With no backward plain jump in the list, whatever the order, every chain still ends where it ended. */
  lemma {:induction false} FollowKeptByAll(code: seq<Word>, starts: set<nat>, sources: seq<nat>, at: nat)
    requires AllJumps(code, starts, sources) && at < |code|
    requires forall x <- sources :: code[x].op == LOP_JUMP ==> D(code[x]) >= 0
    ensures SameEnd(code, Follow(code, at), FoldAll(code, sources), Follow(FoldAll(code, sources), at))
    decreases |sources|
  {
    if sources != [] {
      var n := |sources| - 1;
      var before, last := sources[..n], sources[n];
      var c := FoldAll(code, before);
      AllJumpsPrefix(code, starts, sources);
      FoldAllReady(code, starts, before);
      FoldAllReady(code, starts, sources);
      assert c[last] == code[last] && last in sources;
      FollowKeptByAll(code, starts, before, at);
      FollowKept(c, last, at);
      assert FoldAll(code, sources) == FoldOne(c, last);
    }
  }

  /** A backward plain jump to a chain that leads past it turns forward: then chains that ended there go on. */
  lemma BackwardJumpMayTurn()
    ensures
      var jump := Word(LOP_JUMP, 0, 0, 0);
      var code := [SetD(jump, 1), SetD(jump, 2), SetD(jump, -2), Word(0, 0, 0, 0), Word(0, 0, 0, 0)];
      Follow(code, 0) == 2 && FoldOne(code, 2)[2] == SetD(jump, 1) && Follow(FoldOne(code, 2), 0) == 4
  {
    var jump := Word(LOP_JUMP, 0, 0, 0);
    var code := [SetD(jump, 1), SetD(jump, 2), SetD(jump, -2), Word(0, 0, 0, 0), Word(0, 0, 0, 0)];
    assert Follow(code, 1) == 4;
    var code' := FoldOne(code, 2);
    assert code'[2] == SetD(jump, 1);
    assert Follow(code', 2) == 4;
  }
}
