/**
 From the loop to the code of its copies: when the code of every copy does what a round does with the value of that
 copy, the patched code of all copies does what the loop does.
 */
module UnrolledLoop {
  import opened Results
  import L = LuaSource
  import opened FoldSource
  import opened FoldUnroll
  import J = UnrollJumps

  /** The traces with which code can stand for a state. */
  type Relation = (State, J.Trace) -> bool

  /** How a body that is compiled on its own ends, for a round that ends as `r`. */
  ghost predicate ExitsAs(r: Flow, exit: J.Exit, related: Relation) {
    match r
    case Next(_, st) => exit.FellOut? && related(st, exit.trace)
    case Continued(_, st) => exit.Jumped? && exit.kind.Continue? && related(st, exit.trace)
    case Broke(st) => exit.Jumped? && exit.kind.Break? && related(st, exit.trace)
    case Returned(_, st) => exit.Ended? && related(st, exit.trace)
    case Stopped(_) => false
  }

  ghost predicate Ends(o: J.Oracle, f: J.Fragment, trace: J.Trace, exit: J.Exit) {
    exists n: nat :: J.BodyRun(o, f, J.At(0, trace), n) == Some(exit)
  }

  ghost predicate EndsAs(o: J.Oracle, f: J.Fragment, trace: J.Trace, r: Flow, related: Relation) {
    exists exit :: Ends(o, f, trace, exit) && ExitsAs(r, exit, related)
  }

  /**
   The code `f` does what a round with the value does, from every state and every trace that stands for it, unless the round
   never ends or fails: it exits alike, with a trace that stands for the state at the end.
   */
  ghost predicate Compiled(o: J.Oracle, f: J.Fragment, related: Relation, h: Host, x: LocalId, value: L.Number, body: Stat, env: Env,
                           direct: bool)
  {
    forall st: State, trace: J.Trace, fuel: nat | related(st, trace) ::
      var r := Round(h, x, value, body, env, st, direct, fuel);
      r.Stopped? || EndsAs(o, f, trace, r, related)
  }

  ghost predicate AllCompiled(o: J.Oracle, fs: seq<J.Fragment>, related: Relation, h: Host, x: LocalId, from: L.Number, step: L.Number,
                              body: Stat, env: Env, direct: bool) {
    forall iv: nat :: iv < |fs| ==> Compiled(o, fs[iv], related, h, x, CopyValue(h.math, from, step, iv), body, env, direct)
  }

  /** Where the copies together end. */
  ghost predicate LastExitsAs(r: Flow, exit: J.Exit, related: Relation) {
    (r.Next? || r.Returned?) && ExitsAs(r, exit, related)
  }

  ghost predicate LoopEnds(o: J.Oracle, fs: seq<J.Fragment>, trace: J.Trace, exit: J.Exit) {
    exists n: nat :: J.LoopRun(o, fs, trace, n) == Some(exit)
  }

  ghost predicate LoopEndsAs(o: J.Oracle, fs: seq<J.Fragment>, trace: J.Trace, r: Flow, related: Relation) {
    exists exit :: LoopEnds(o, fs, trace, exit) && LastExitsAs(r, exit, related)
  }

  // ----- more fuel does no harm -----

  lemma {:induction false} BodyFuel(o: J.Oracle, f: J.Fragment, c: J.Config, n: nat, more: nat)
    requires J.BodyRun(o, f, c, n).Some? && n <= more
    ensures J.BodyRun(o, f, c, more) == J.BodyRun(o, f, c, n)
    decreases n
  {
    if n > 0 && c.At? && 0 <= c.pc < |f.code| && J.KindAt(f.jumps, c.pc).None? {
      BodyFuel(o, f, J.Step(o, f.code, c), n - 1, more - 1);
    }
  }

  lemma {:induction false} LoopFuel(o: J.Oracle, fs: seq<J.Fragment>, trace: J.Trace, n: nat, more: nat)
    requires J.LoopRun(o, fs, trace, n).Some? && n <= more
    ensures J.LoopRun(o, fs, trace, more) == J.LoopRun(o, fs, trace, n)
    decreases |fs|
  {
    if fs != [] {
      BodyFuel(o, fs[0], J.At(0, trace), n, more);
      var exit := J.BodyRun(o, fs[0], J.At(0, trace), n).value;
      if exit.FellOut? || (exit.Jumped? && exit.kind.Continue?) {
        LoopFuel(o, fs[1..], exit.trace, n, more);
      }
    }
  }

  /** One body, and what follows it if the loop goes on. */
  lemma LoopEndsFirst(o: J.Oracle, fs: seq<J.Fragment>, trace: J.Trace, exit: J.Exit, last: J.Exit)
    requires fs != [] && Ends(o, fs[0], trace, exit)
    requires exit.Ended? ==> last == exit
    requires exit.Jumped? && exit.kind.Break? ==> last == J.FellOut(exit.trace)
    requires exit.FellOut? || (exit.Jumped? && exit.kind.Continue?) ==> LoopEnds(o, fs[1..], exit.trace, last)
    ensures LoopEnds(o, fs, trace, last)
  {
    var n: nat :| J.BodyRun(o, fs[0], J.At(0, trace), n) == Some(exit);
    if exit.FellOut? || (exit.Jumped? && exit.kind.Continue?) {
      var m: nat :| J.LoopRun(o, fs[1..], exit.trace, m) == Some(last);
      var most := if m < n then n else m;
      BodyFuel(o, fs[0], J.At(0, trace), n, most);
      LoopFuel(o, fs[1..], exit.trace, m, most);
      assert J.LoopRun(o, fs, trace, most) == Some(last);
    } else {
      assert J.LoopRun(o, fs, trace, n) == Some(last);
    }
  }

  // ----- copy by copy -----

  lemma FirstCopyRuns(o: J.Oracle, fs: seq<J.Fragment>, related: Relation, h: Host, x: LocalId, from: L.Number, step: L.Number, iv: nat,
                      body: Stat, env: Env, st: State, trace: J.Trace, direct: bool, fuel: nat, r: Flow) returns (exit: J.Exit)
    requires AllCompiled(o, fs, related, h, x, from, step, body, env, direct) && iv < |fs| && related(st, trace)
    requires r == Round(h, x, CopyValue(h.math, from, step, iv), body, env, st, direct, fuel) && !r.Stopped?
    ensures Ends(o, fs[iv], trace, exit) && ExitsAs(r, exit, related)
  {
    assert Compiled(o, fs[iv], related, h, x, CopyValue(h.math, from, step, iv), body, env, direct);
    assert EndsAs(o, fs[iv], trace, r, related);
    exit :| Ends(o, fs[iv], trace, exit) && ExitsAs(r, exit, related);
  }

  lemma NoCopyRuns(o: J.Oracle, fs: seq<J.Fragment>, trace: J.Trace)
    requires fs == []
    ensures LoopEnds(o, fs, trace, J.FellOut(trace))
  {
    assert J.LoopRun(o, fs, trace, 0) == Some(J.FellOut(trace));
  }

  /** The first copy, and what the rest of them do if the loop goes on. */
  lemma CopyEnds(o: J.Oracle, fs: seq<J.Fragment>, iv: nat, related: Relation, env: Env, fuel: nat, trace: J.Trace, r: Flow, exit: J.Exit, rest: Flow)
    requires iv < |fs| && Ends(o, fs[iv], trace, exit) && ExitsAs(r, exit, related)
    requires GoesOn(r, fuel) ==> LoopEndsAs(o, fs[iv + 1..], exit.trace, rest, related)
    requires !RoundEnd(r, env, fuel, rest).Stopped?
    ensures LoopEndsAs(o, fs[iv..], trace, RoundEnd(r, env, fuel, rest), related)
  {
    var last := if exit.Jumped? && exit.kind.Break? then J.FellOut(exit.trace) else exit;
    if GoesOn(r, fuel) {
      last :| LoopEnds(o, fs[iv + 1..], exit.trace, last) && LastExitsAs(rest, last, related);
    }
    assert fs[iv..][0] == fs[iv] && fs[iv..][1..] == fs[iv + 1..];
    LoopEndsFirst(o, fs[iv..], trace, exit, last);
    assert LoopEnds(o, fs[iv..], trace, last) && LastExitsAs(RoundEnd(r, env, fuel, rest), last, related);
  }

  lemma {:induction false} CopiesRun(o: J.Oracle, fs: seq<J.Fragment>, related: Relation, h: Host, x: LocalId, from: L.Number, step: L.Number,
                                     iv: nat, body: Stat, env: Env, st: State, trace: J.Trace, direct: bool, fuel: nat, whole: Flow)
    requires AllCompiled(o, fs, related, h, x, from, step, body, env, direct) && iv <= |fs| && related(st, trace)
    requires whole == Unrolled(h, x, from, step, |fs|, iv, body, env, st, direct, fuel) && !whole.Stopped?
    ensures LoopEndsAs(o, fs[iv..], trace, whole, related)
    decreases fuel
  {
    if iv == |fs| {
      NoCopyRuns(o, fs[iv..], trace);
      assert LastExitsAs(whole, J.FellOut(trace), related);
    } else {
      var r := Round(h, x, CopyValue(h.math, from, step, iv), body, env, st, direct, fuel);
      var rest := r;
      if GoesOn(r, fuel) {
        rest := Unrolled(h, x, from, step, |fs|, iv + 1, body, env, r.st, direct, fuel - 1);
      }
      CopyRound(h, x, from, step, |fs|, iv, body, env, st, direct, fuel, r, rest);
      var exit := FirstCopyRuns(o, fs, related, h, x, from, step, iv, body, env, st, trace, direct, fuel, r);
      if GoesOn(r, fuel) {
        CopiesRun(o, fs, related, h, x, from, step, iv + 1, body, env, r.st, exit.trace, direct, fuel - 1, rest);
      }
      CopyEnds(o, fs, iv, related, env, fuel, trace, r, exit, rest);
    }
  }

  /**
   A loop with a trip count, and one fragment of code for every round: wherever the loop ends, the patched code of the
   fragments ends there too, behind its last word or by leaving the function, with a trace that stands for the state.
   */
  lemma PatchedCodeIsLoop(o: J.Oracle, code: seq<J.Op>, at: nat, fs: seq<J.Fragment>, related: Relation,
                          h: Host, x: LocalId, from: L.Number, to: L.Number, step: L.Number,
                          body: Stat, env: Env, st: State, trace: J.Trace, direct: bool, fuel: nat) returns (end: J.Trace)
    requires ExactOnIntegers(h.math) && GetTripCount(from, to, step) == |fs|
    requires AsInt(step).Some? && !(from.NegativeZero? && AsInt(step).value > 0 && |fs| > 0)
    requires AllCompiled(o, fs, related, h, x, from, step, body, env, direct) && related(st, trace)
    requires J.Embedded(code, at, J.UnrolledCode(fs))
    requires !ForLoop(h, x, from, to, step, body, env, st, direct, fuel).Stopped?
    ensures
      var r := ForLoop(h, x, from, to, step, body, env, st, direct, fuel);
      && (r.Next? || r.Returned?) && related(r.st, end)
      && J.Reaches(o, code, J.At(at, trace), if r.Returned? then J.Left(end) else J.At(at + J.Length(fs), end))
  {
    UnrolledIsLoop(h, x, from, to, step, 0, body, env, st, direct, fuel);
    var r := ForLoop(h, x, from, to, step, body, env, st, direct, fuel);
    CopiesRun(o, fs, related, h, x, from, step, 0, body, env, st, trace, direct, fuel, r);
    assert fs[0..] == fs;
    var exit :| LoopEnds(o, fs, trace, exit) && LastExitsAs(r, exit, related);
    var n: nat :| J.LoopRun(o, fs, trace, n) == Some(exit);
    J.UnrolledCodeRuns(o, code, at, fs, trace, n);
    end := exit.trace;
  }
}
