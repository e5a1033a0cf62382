/**
 Far jumps get a trampoline in front of them: a plain jump over a long jump, which the far jump then reaches
 by going two words back. All other offsets are computed again. The expanded code runs like the code before.
 */
module JumpExpand {
  import opened JumpCode

  /** The destinations recorded while emitting, by the position of the jump; far jumps carry no offset yet. */
  type Table = map<nat, nat>

  const FAR := 10922  // 32767 / 3

  /** Jumps as far as this, and farther ones, are refused. */
  const MAX_JUMP_DISTANCE := 0x80_0000

  function Offset(t: Table, k: nat): int
    requires k in t
  {
    t[k] - k - 1
  }

  predicate Far(t: Table, k: nat) {
    k in t && (Offset(t, k) > FAR || Offset(t, k) < -FAR)
  }

  /** The number of trampolines before word `i`. */
  function FarCount(t: Table, i: nat): nat {
    if i == 0 then 0 else FarCount(t, i - 1) + if Far(t, i - 1) then 1 else 0
  }

  /** The new position of word `k`; its trampoline, if any, is right before. */
  function NewPos(t: Table, k: nat): nat {
    k + 2 * FarCount(t, k + 1)
  }

  /** Words start one after another, up to the end. */
  ghost predicate Layout(code: seq<Word>, starts: set<nat>) {
    && (|code| > 0 ==> 0 in starts)
    && (forall pc <- starts :: pc < |code|)
    && forall pc: nat {:trigger FollowedIn(code, pc, starts)} | pc in starts :: FollowedIn(code, pc, starts)
  }

  ghost predicate FollowedIn(code: seq<Word>, pc: nat, starts: set<nat>)
    requires pc < |code|
  {
    var next := pc + OpLength(code[pc].op);
    next <= |code| && (next in starts || next == |code|) && (next == pc + 2 ==> pc + 1 !in starts)
  }

  /** Every jump is in the table, and every jump that is not far carries its offset. */
  ghost predicate Recorded(code: seq<Word>, starts: set<nat>, t: Table) {
    && (forall k <- t :: k in starts && t[k] in starts)
    && forall pc <- starts ::
         && pc < |code|
         && code[pc].op != LOP_JUMPX
         && (IsJumpD(code[pc].op) <==> pc in t)
         && (pc in t && !Far(t, pc) ==> D(code[pc]) == Offset(t, pc))
  }

  // ----- the expanded code -----

  function OverLongJump(line: int): Word {
    Word(LOP_JUMP, 0, 1, line)
  }

  function LongJump(line: int, offset: int): Word {
    SetE(Word(LOP_JUMPX, 0, 0, line), offset)
  }

  /** Word `k` with its offset for the new positions, if it is a jump. */
  function Repatched(code: seq<Word>, t: Table, k: nat): Word
    requires k < |code|
  {
    if Far(t, k) then SetD(code[k], -2)
    else if k in t then SetD(code[k], NewPos(t, t[k]) - NewPos(t, k) - 1)
    else code[k]
  }

  ghost predicate WordExpanded(code: seq<Word>, t: Table, new_: seq<Word>, k: nat, patched: nat)
    requires k < |code|
  {
    && NewPos(t, k) < |new_|
    && new_[NewPos(t, k)] == (if k < patched then Repatched(code, t, k) else code[k])
    && (Far(t, k) ==>
          && NewPos(t, k) >= 2
          && new_[NewPos(t, k) - 2] == OverLongJump(code[k].line)
          && new_[NewPos(t, k) - 1] ==
             (if k < patched then LongJump(code[k].line, NewPos(t, t[k]) - NewPos(t, k)) else Word(LOP_JUMPX, 0, 0, code[k].line)))
  }

  /** The first `copied` words have moved; the jumps among the first `patched` ones have their new offsets. */
  ghost predicate Expanded(code: seq<Word>, t: Table, new_: seq<Word>, copied: nat, patched: nat) {
    && |new_| == copied + 2 * FarCount(t, copied)
    && forall k: nat :: k < copied && k < |code| ==> WordExpanded(code, t, new_, k, patched)
  }

  // ----- positions -----

  lemma {:induction false} FarCountMonotone(t: Table, i: nat, j: nat)
    requires i <= j
    ensures 0 <= FarCount(t, j) - FarCount(t, i) <= j - i
    decreases j
  {
    if i < j {
      FarCountMonotone(t, i, j - 1);
    }
  }

  /** New positions keep the order, and leave room for the trampoline. */
  lemma NewPosMonotone(t: Table, k: nat, l: nat)
    requires k < l
    ensures NewPos(t, k) < NewPos(t, l)
    ensures Far(t, l) ==> NewPos(t, k) < NewPos(t, l) - 2
  {
    FarCountMonotone(t, k + 1, l);
  }

  ghost predicate AllFar(t: Table, lo: nat, hi: nat) {
    forall k: nat :: lo <= k < hi ==> Far(t, k)
  }

  lemma {:induction false} FarCountFull(t: Table, i: nat, j: nat)
    requires i <= j
    ensures FarCount(t, j) - FarCount(t, i) == j - i <==> AllFar(t, i, j)
    decreases j
  {
    if i < j {
      FarCountFull(t, i, j - 1);
      FarCountMonotone(t, i, j - 1);
      if FarCount(t, j) - FarCount(t, i) == j - i {
        assert Far(t, j - 1);
      }
    }
  }

  /** Only code with a jump that does not fit 16 bits is expanded. */
  ghost predicate HasLongJumps(t: Table) {
    exists k :: k in t && !Fits16(Offset(t, k))
  }

  /** The offset of a jump after the pass. */
  ghost function OffsetAfter(t: Table, k: nat): int
    requires k in t
  {
    if HasLongJumps(t) then NewPos(t, t[k]) - NewPos(t, k) - 1 else Offset(t, k)
  }

  /**
   A jump without a trampoline fits its 16 bits after the pass, save in one case: some jump of the function does not fit
   16 bits, this one goes forward by exactly 10922, and every word after it, up to and including its destination, got a
   trampoline.
   */
  lemma NearStillFits(t: Table, k: nat)
    requires k in t && !Far(t, k)
    ensures
      var offset := NewPos(t, t[k]) - NewPos(t, k) - 1;
      && (Offset(t, k) >= 0 ==> Offset(t, k) <= offset <= 3 * (Offset(t, k) + 1) - 1)
      && (Offset(t, k) < -1 ==> 3 * Offset(t, k) + 4 <= offset <= Offset(t, k))
      && (Fits16(offset) <==> !(Offset(t, k) == FAR && AllFar(t, k + 1, t[k] + 1)))
    ensures Fits16(OffsetAfter(t, k)) <==> !(HasLongJumps(t) && Offset(t, k) == FAR && AllFar(t, k + 1, t[k] + 1))
  {
    if t[k] > k {
      FarCountMonotone(t, k + 1, t[k] + 1);
      FarCountFull(t, k + 1, t[k] + 1);
    } else if t[k] < k {
      FarCountMonotone(t, t[k] + 1, k);
      assert FarCount(t, k + 1) == FarCount(t, k);
    }
  }

  function Below(n: nat): (r: set<nat>)
    ensures forall k: nat :: k in r <==> k < n
  {
    if n == 0 then {} else Below(n - 1) + {n - 1}
  }

  /** `n` plain jumps: all but the first lead `d` words on, the first one to the last of the others. */
  function CrowdedTable(n: nat, d: nat): Table
    requires n > 0
  {
    map k <- Below(n) :: if k == 0 then n - 1 else k + d
  }

  function CrowdedCode(n: nat, d: nat): seq<Word> {
    seq(n + d, k requires 0 <= k => CrowdedWord(n, d, k))
  }

  /** Offsets that do not fit 16 bits are not written. */
  function CrowdedWord(n: nat, d: nat, k: nat): Word {
    if k >= n then Word(LOP_RETURN, 0, 0, 0)
    else
      var offset := if k == 0 then n - 2 else d - 1;
      if Fits16(offset) then SetD(Word(LOP_JUMP, 0, 0, 0), offset) else Word(LOP_JUMP, 0, 0, 0)
  }

  ghost predicate Crowded(n: nat, d: nat) {
    n >= FAR + 2 && d > 0x8000
  }

  lemma CrowdedWordRecorded(n: nat, d: nat, pc: nat)
    requires Crowded(n, d) && pc < n + d
    ensures
      var w, t := CrowdedCode(n, d)[pc], CrowdedTable(n, d);
      && OpLength(w.op) == 1 && w.op != LOP_JUMPX
      && (IsJumpD(w.op) <==> pc in t)
      && (pc in t ==> t[pc] < n + d && (Far(t, pc) || D(w) == Offset(t, pc)))
  {
    FieldsReadBack(Word(LOP_JUMP, 0, 0, 0), n - 2);
    assert CrowdedCode(n, d)[pc] == CrowdedWord(n, d, pc);
  }

  lemma CrowdedIsRecorded(n: nat, d: nat)
    requires Crowded(n, d)
    ensures
      var code, starts, t := CrowdedCode(n, d), Below(n + d), CrowdedTable(n, d);
      Layout(code, starts) && Recorded(code, starts, t) && HasLongJumps(t)
  {
    forall pc: nat | pc < n + d {
      CrowdedWordRecorded(n, d, pc);
    }
    var t := CrowdedTable(n, d);
    assert 1 in t && t[1] == d + 1 && !Fits16(Offset(t, 1));
  }

  lemma CrowdedDistance(n: nat, d: nat)
    requires Crowded(n, d)
    ensures var t := CrowdedTable(n, d); t[0] == n - 1 && NewPos(t, n - 1) - NewPos(t, 0) == 3 * (n - 1)
  {
    var t := CrowdedTable(n, d);
    forall k: nat | 1 <= k < n
      ensures Far(t, k)
    {
      assert t[k] == k + d;
    }
    FarCountFull(t, 1, n);
  }

  /**
   The exception exists: ten thousand far jumps in a row, which do not fit 16 bits, and before them one that just is not far.
   The word it gets says something else.
   */
  lemma NearMayOverflow(n: nat, d: nat)
    requires n == FAR + 2 && d == 40000
    ensures
      var code, starts, t := CrowdedCode(n, d), Below(n + d), CrowdedTable(n, d);
      && Layout(code, starts) && Recorded(code, starts, t) && HasLongJumps(t)
      && !Far(t, 0) && OffsetAfter(t, 0) == 0x8000 && D(Repatched(code, t, 0)) == -0x8000
  {
    CrowdedIsRecorded(n, d);
    CrowdedDistance(n, d);
  }

  /**
   A long jump reaches its destination exactly if its distance, and two words for every trampoline on the way, fit 24 bits.
   Up to a third of the largest distance they always do.
   */
  lemma LongJumpFits(t: Table, k: nat)
    requires k in t
    ensures
      Fits24(NewPos(t, t[k]) - NewPos(t, k)) <==>
      if t[k] >= k then t[k] - k + 2 * (FarCount(t, t[k] + 1) - FarCount(t, k + 1)) < 0x80_0000
      else k - t[k] + 2 * (FarCount(t, k + 1) - FarCount(t, t[k] + 1)) <= 0x80_0000
    ensures -0x80_0000 <= 3 * (t[k] - k) < 0x80_0000 ==> Fits24(NewPos(t, t[k]) - NewPos(t, k))
  {
    if t[k] >= k {
      FarCountMonotone(t, k + 1, t[k] + 1);
    } else {
      FarCountMonotone(t, t[k] + 1, k + 1);
    }
  }

  /** Four million far jumps: the builder records the first one, whose distance is half the largest, but it then grows too far. */
  lemma LongMayOverflow(n: nat, d: nat)
    requires n == d == 0x40_0000
    ensures
      var code, starts, t := CrowdedCode(n, d), Below(n + d), CrowdedTable(n, d);
      && Layout(code, starts) && Recorded(code, starts, t) && HasLongJumps(t)
      && Far(t, 0) && Offset(t, 0) < MAX_JUMP_DISTANCE / 2 && !Fits24(NewPos(t, t[0]) - NewPos(t, 0))
  {
    CrowdedIsRecorded(n, d);
    CrowdedDistance(n, d);
  }
}
