/** The builder's three passes over jumps: patching, folding and expanding, on its own vectors. */
module JumpLayout {
  import opened JumpCode
  import opened JumpFold
  import opened JumpExpand

  datatype Jump = Jump(source: nat, target: nat)

  function Distance(j: Jump): int {
    j.target - j.source - 1
  }

  function Sources(jumps: seq<Jump>): seq<nat> {
    seq(|jumps|, i requires 0 <= i < |jumps| => jumps[i].source)
  }

  ghost predicate Increasing(jumps: seq<Jump>) {
    forall i, j :: 0 <= i < j < |jumps| ==> jumps[i].source < jumps[j].source
  }

  ghost predicate Distinct(jumps: seq<Jump>) {
    forall i, j :: 0 <= i < j < |jumps| ==> jumps[i].source != jumps[j].source
  }

  /** The list of jumps as a table. */
  ghost predicate Describes(t: Table, jumps: seq<Jump>) {
    && (forall j <- jumps :: j.source in t && t[j.source] == j.target)
    && (forall k <- t :: Jump(k, t[k]) in jumps)
  }

  function Insert(jumps: seq<Jump>, x: Jump): (r: seq<Jump>)
    ensures multiset(r) == multiset(jumps) + multiset{x}
  {
    if jumps == [] then [x]
    else if x.source < jumps[0].source then [x] + jumps
    else
      assert jumps == [jumps[0]] + jumps[1..];
      [jumps[0]] + Insert(jumps[1..], x)
  }

  /** The library sort, by source. */
  function Sorted(jumps: seq<Jump>): (r: seq<Jump>)
    ensures multiset(r) == multiset(jumps)
  {
    if jumps == [] then []
    else
      assert jumps == [jumps[0]] + jumps[1..];
      Insert(Sorted(jumps[1..]), jumps[0])
  }

  lemma SameMembers(r: seq<Jump>, jumps: seq<Jump>)
    requires multiset(r) == multiset(jumps)
    ensures |r| == |jumps| && forall j :: j in r <==> j in jumps
  {
    assert |multiset(r)| == |r|;
    forall j
      ensures j in r <==> j in jumps
    {
      assert j in r <==> j in multiset(r);
      assert j in jumps <==> j in multiset(jumps);
    }
  }

  lemma {:induction false} InsertIncreasing(jumps: seq<Jump>, x: Jump)
    requires Increasing(jumps) && forall j <- jumps :: j.source != x.source
    ensures Increasing(Insert(jumps, x))
  {
    if jumps != [] && x.source >= jumps[0].source {
      InsertIncreasing(jumps[1..], x);
      var rest := Insert(jumps[1..], x);
      forall j <- rest
        ensures jumps[0].source < j.source
      {
        assert j in multiset(rest);
        assert j in jumps[1..] || j == x;
      }
    }
  }

  lemma {:induction false} SortedIncreasing(jumps: seq<Jump>)
    requires Distinct(jumps)
    ensures Increasing(Sorted(jumps))
  {
    if jumps != [] {
      SortedIncreasing(jumps[1..]);
      SameMembers(Sorted(jumps[1..]), jumps[1..]);
      InsertIncreasing(Sorted(jumps[1..]), jumps[0]);
    }
  }

  // ----- steps of the expansion -----

  /** What is put in front of word `i`; the offset of the long jump comes later. */
  function Trampoline(code: seq<Word>, t: Table, i: nat): seq<Word>
    requires i < |code|
  {
    if Far(t, i) then [OverLongJump(code[i].line), Word(LOP_JUMPX, 0, 0, code[i].line)] else []
  }

  /** Appending word `i`, behind its trampoline if it has one. */
  lemma CopiesWord(code: seq<Word>, t: Table, new_: seq<Word>, i: nat)
    requires Expanded(code, t, new_, i, 0) && i < |code|
    ensures Expanded(code, t, new_ + Trampoline(code, t, i) + [code[i]], i + 1, 0)
  {
    var after := new_ + Trampoline(code, t, i) + [code[i]];
    forall k: nat | k < i + 1
      ensures WordExpanded(code, t, after, k, 0)
    {
      if k < i {
        assert WordExpanded(code, t, new_, k, 0);
        assert after[NewPos(t, k)] == new_[NewPos(t, k)];
      }
    }
  }

  /** Appending a whole instruction. */
  lemma CopiesInstruction(code: seq<Word>, starts: set<nat>, t: Table, new_: seq<Word>, i: nat, next: nat)
    requires Expanded(code, t, new_, i, 0) && i < |code|
    requires next == i + OpLength(code[i].op) <= |code|
    requires FollowedIn(code, i, starts) && forall k <- t :: k in starts
    ensures Expanded(code, t, new_ + Trampoline(code, t, i) + code[i..next], next, 0)
    ensures forall k: nat :: i <= k < next ==> NewPos(t, k) == |new_ + Trampoline(code, t, i)| + k - i
  {
    CopiesWord(code, t, new_, i);
    var first := new_ + Trampoline(code, t, i) + [code[i]];
    if next == i + 2 {
      CopiesWord(code, t, first, i + 1);
      assert i + 1 !in t;
      assert Trampoline(code, t, i + 1) == [];
      assert code[i..next] == [code[i]] + [code[i + 1]];
      assert first + [] + [code[i + 1]] == new_ + Trampoline(code, t, i) + code[i..next];
    } else {
      assert first == new_ + Trampoline(code, t, i) + code[i..next];
    }
  }

  ghost predicate Remapped(remap: seq<nat>, t: Table, n: nat) {
    n <= |remap| && forall k: nat :: k < n ==> remap[k] == NewPos(t, k)
  }

  lemma RemappedOn(before: seq<nat>, after: seq<nat>, t: Table, i: nat, next: nat, length: nat)
    requires Remapped(before, t, i) && i <= next <= |after| && after[..i] == before[..i]
    requires forall k: nat :: i <= k < next ==> after[k] == length + k - i
    requires forall k: nat :: i <= k < next ==> NewPos(t, k) == length + k - i
    ensures Remapped(after, t, next)
  {
    forall k: nat | k < i
      ensures after[k] == NewPos(t, k)
    {
      assert after[..i][k] == before[..i][k];
    }
  }

  /** The new stream after one jump got its offset. */
  function PatchedStream(new_: seq<Word>, at: nat, far: bool, newOffset: int): seq<Word>
    requires at < |new_| && (far ==> at >= 1)
  {
    if far then new_[at - 1 := SetE(new_[at - 1], newOffset + 1)][at := SetD(new_[at], -2)]
    else new_[at := SetD(new_[at], newOffset)]
  }

  lemma PatchesJump(code: seq<Word>, t: Table, new_: seq<Word>, k: nat, limit: nat)
    requires Expanded(code, t, new_, |code|, k) && k < |code| && k in t && k < limit
    requires forall x: nat :: k < x < limit ==> x !in t
    ensures NewPos(t, k) < |new_| && (Far(t, k) ==> NewPos(t, k) >= 1)
    ensures
      var newOffset := NewPos(t, t[k]) - NewPos(t, k) - 1;
      Expanded(code, t, PatchedStream(new_, NewPos(t, k), Far(t, k), newOffset), |code|, limit)
  {
    assert WordExpanded(code, t, new_, k, k);
    var newOffset := NewPos(t, t[k]) - NewPos(t, k) - 1;
    var after := PatchedStream(new_, NewPos(t, k), Far(t, k), newOffset);
    forall x: nat | x < |code|
      ensures WordExpanded(code, t, after, x, limit)
    {
      assert WordExpanded(code, t, new_, x, k);
      if x < k {
        NewPosMonotone(t, x, k);
      } else if x > k {
        NewPosMonotone(t, k, x);
      }
    }
  }

  // ----- reading the sorted list -----

  /** Once all jumps before `i` are passed, the next one starts at `i` exactly if `i` is in the table. */
  lemma AtJump(jumps: seq<Jump>, t: Table, current: nat, i: nat)
    requires Describes(t, jumps) && current <= |jumps|
    requires forall j :: 0 <= j < current ==> jumps[j].source < i
    requires forall j :: current <= j < |jumps| ==> i <= jumps[j].source
    requires Increasing(jumps)
    ensures (current < |jumps| && jumps[current].source == i) <==> i in t
    ensures i in t ==> t[i] == jumps[current].target
  {
    if current < |jumps| {
      assert jumps[current] in jumps;
    }
    assert forall x :: current < x < |jumps| ==> jumps[current].source < jumps[x].source;
  }

  function NextSource(jumps: seq<Jump>, c: nat, end: nat): nat {
    if c < |jumps| then jumps[c].source else end
  }

  lemma NoneBetween(jumps: seq<Jump>, t: Table, c: nat, x: nat, end: nat)
    requires Describes(t, jumps) && Increasing(jumps) && c <= |jumps|
    requires (c > 0 ==> jumps[c - 1].source < x) && x < NextSource(jumps, c, end) && x < end
    ensures x !in t
  {
    forall i | 0 <= i < |jumps|
      ensures jumps[i].source != x
    {
      if i < c - 1 {
        assert jumps[i].source < jumps[c - 1].source;
      } else if i > c {
        assert jumps[c].source < jumps[i].source;
      }
    }
  }

  lemma NoneUpToNext(jumps: seq<Jump>, t: Table, c: nat, end: nat)
    requires Describes(t, jumps) && Increasing(jumps) && c < |jumps| && forall j <- jumps :: j.source < end
    ensures jumps[c].source < NextSource(jumps, c + 1, end)
    ensures forall x: nat :: jumps[c].source < x < NextSource(jumps, c + 1, end) ==> x !in t
  {
    assert jumps[c] in jumps;
    forall x: nat | jumps[c].source < x < NextSource(jumps, c + 1, end) && x < end
      ensures x !in t
    {
      NoneBetween(jumps, t, c + 1, x, end);
    }
  }

  /** Past the instruction at `i`, and past its jump if it is one, all other jumps are further on. */
  lemma Passed(jumps: seq<Jump>, current: nat, next: nat, code: seq<Word>, starts: set<nat>, t: Table, i: nat)
    requires Describes(t, jumps) && Increasing(jumps) && current <= next <= |jumps|
    requires i < |code| && FollowedIn(code, i, starts) && forall k <- t :: k in starts
    requires forall j :: 0 <= j < current ==> jumps[j].source < i
    requires forall j :: current <= j < |jumps| ==> i <= jumps[j].source
    requires next == if current < |jumps| && jumps[current].source == i then current + 1 else current
    ensures forall j :: 0 <= j < next ==> jumps[j].source < i + OpLength(code[i].op)
    ensures forall j :: next <= j < |jumps| ==> i + OpLength(code[i].op) <= jumps[j].source
  {
    forall j | next <= j < |jumps|
      ensures i + OpLength(code[i].op) <= jumps[j].source
    {
      assert jumps[j] in jumps && jumps[j].source in starts;
      if current < j {
        assert jumps[current].source < jumps[j].source;
      }
    }
  }

  /** Nothing needs a patch before the first jump. */
  lemma NothingBefore(code: seq<Word>, t: Table, new_: seq<Word>, jumps: seq<Jump>)
    requires Expanded(code, t, new_, |code|, 0) && Describes(t, jumps) && Increasing(jumps)
    ensures Expanded(code, t, new_, |code|, NextSource(jumps, 0, |code|))
  {
    forall k: nat | k < |code|
      ensures WordExpanded(code, t, new_, k, NextSource(jumps, 0, |code|))
    {
      assert WordExpanded(code, t, new_, k, 0);
      if k < NextSource(jumps, 0, |code|) {
        NoneBetween(jumps, t, 0, k, |code|);
      }
    }
  }

  // ----- folding, jump by jump -----

  /** What is recorded as the target of jump `i`: the end of its chain when its turn came. */
  ghost predicate FoldTarget(code: seq<Word>, sources: seq<nat>, i: nat, target: nat)
    requires i < |sources|
  {
    var c := FoldAll(code, sources[..i]);
    InRange(c, sources[i]) && target == Follow(c, Destination(c, sources[i]))
  }

  /** Every jump leads to the target that is recorded for it, or is the return found there, or that is too far. */
  ghost predicate AllFolded(code: seq<Word>, jumps: seq<Jump>, folded: seq<Word>)
  {
    |folded| == |code| && forall i: nat :: i < |jumps| ==> JumpFolded(code, Sources(jumps), i, jumps[i].target, folded)
  }

  ghost predicate JumpFolded(code: seq<Word>, sources: seq<nat>, i: nat, target: nat, folded: seq<Word>)
    requires i < |sources| && |folded| == |code|
  {
    var c := FoldAll(code, sources[..i]);
    && sources[i] < |code| && target < |code| && FoldTarget(code, sources, i, target)
    && FoldedTo(c, sources[i], target, folded[sources[i]])
  }

  lemma SourcesStay(jumps: seq<Jump>, i: nat, target: nat)
    requires i < |jumps|
    ensures Sources(jumps[i := jumps[i].(target := target)]) == Sources(jumps)
  {
  }

  lemma PrefixReady(code: seq<Word>, starts: set<nat>, sources: seq<nat>, i: nat)
    requires AllJumps(code, starts, sources) && i < |sources|
    ensures Foldable(FoldAll(code, sources[..i]), starts, sources[i])
    ensures FoldAll(code, sources[..i + 1]) == FoldOne(FoldAll(code, sources[..i]), sources[i])
  {
    var upTo := sources[..i + 1];
    assert forall x <- upTo :: x in sources;
    FoldAllReady(code, starts, upTo);
    assert upTo[..i] == sources[..i];
  }

  // ----- the builder -----

  class BytecodeBuilder {
    var insns: seq<Word>
    var jumps: seq<Jump>
    var hasLongJumps: bool

    constructor ()
      ensures insns == [] && jumps == [] && !hasLongJumps
    {
      insns, jumps, hasLongJumps := [], [], false;
    }

    /** Every recorded jump carries its offset if that fits, and the flag says whether one does not. */
    ghost predicate Valid()
      reads this
    {
      && (forall j <- jumps :: j.source < |insns| && IsJumpD(insns[j.source].op))
      && (forall j <- jumps :: Fits16(Distance(j)) ==> D(insns[j.source]) == Distance(j))
      && (hasLongJumps <==> exists j <- jumps :: !Fits16(Distance(j)))
    }

    method PatchJumpD(jumpLabel: nat, targetLabel: nat) returns (ok: bool)
      requires Valid() && jumpLabel < |insns| && targetLabel <= |insns|
      requires IsJumpD(insns[jumpLabel].op) && D(insns[jumpLabel]) == 0
      requires forall j <- jumps :: j.source != jumpLabel
      modifies this
      ensures Valid()
      ensures
        var j := Jump(jumpLabel, targetLabel);
        && ok == (-MAX_JUMP_DISTANCE < Distance(j) < MAX_JUMP_DISTANCE)
        && jumps == (if ok then old(jumps) + [j] else old(jumps))
        && |insns| == old(|insns|)
        && (forall k :: 0 <= k < |insns| && k != jumpLabel ==> insns[k] == old(insns[k]))
        && insns[jumpLabel] == old(insns[jumpLabel]).(hi := insns[jumpLabel].hi)
        && D(insns[jumpLabel]) == (if Fits16(Distance(j)) then Distance(j) else 0)
    {
      var offset := targetLabel - jumpLabel - 1;
      FieldsReadBack(insns[jumpLabel], offset);
      if Fits16(offset) {
        insns := insns[jumpLabel := SetD(insns[jumpLabel], offset)];
      } else if -MAX_JUMP_DISTANCE < offset < MAX_JUMP_DISTANCE {
        hasLongJumps := true;
      } else {
        return false;
      }
      ghost var before := jumps;
      jumps := jumps + [Jump(jumpLabel, targetLabel)];
      assert forall j <- jumps :: j in before || j == Jump(jumpLabel, targetLabel);
      assert jumps[|before|] in jumps;
      assert forall j <- before :: j in jumps;
      return true;
    }

    /** Follows forward plain jumps, and those only, so that it ends. */
    method FollowJumps(first: nat, ghost starts: set<nat>) returns (targetLabel: nat)
      requires Closed(insns, starts) && first in starts
      ensures first < |insns| && targetLabel == Follow(insns, first)
    {
      targetLabel := first;
      var targetInsn := insns[targetLabel];
      while targetInsn.op == LOP_JUMP && D(targetInsn) >= 0
        invariant targetLabel < |insns| && targetInsn == insns[targetLabel] && targetLabel in starts
        invariant Follow(insns, targetLabel) == Follow(insns, first)
        decreases |insns| - targetLabel
      {
        assert SuccessorsIn(insns[targetLabel], targetLabel, starts);
        targetLabel := targetLabel + 1 + D(targetInsn);
        targetInsn := insns[targetLabel];
      }
    }

    /** Folds one jump. */
    method FoldJump(jumpLabel: nat, ghost starts: set<nat>) returns (targetLabel: nat)
      requires Foldable(insns, starts, jumpLabel)
      modifies this`insns
      ensures targetLabel == Follow(old(insns), Destination(old(insns), jumpLabel))
      ensures insns == FoldOne(old(insns), jumpLabel)
    {
      var jumpInsn := insns[jumpLabel];
      targetLabel := FollowJumps(jumpLabel + 1 + D(jumpInsn), starts);
      var targetInsn := insns[targetLabel];
      var offset := targetLabel - jumpLabel - 1;
      if jumpInsn.op == LOP_JUMP && targetInsn.op == LOP_RETURN {
        insns := insns[jumpLabel := targetInsn];
      } else if Fits16(offset) {
        insns := insns[jumpLabel := SetD(jumpInsn, offset)];
      }
    }

    /** Leaves the code alone if there are long jumps; otherwise folds every jump, in the order of the list. */
    method FoldJumps(ghost starts: set<nat>)
      requires !hasLongJumps ==> AllJumps(insns, starts, Sources(jumps))
      modifies this`insns, this`jumps
      ensures hasLongJumps ==> insns == old(insns) && jumps == old(jumps)
      ensures !hasLongJumps ==> insns == FoldAll(old(insns), Sources(old(jumps)))
      ensures Sources(jumps) == Sources(old(jumps))
      ensures !hasLongJumps ==> AllFolded(old(insns), jumps, insns)
    {
      if hasLongJumps {
        return;
      }
      ghost var code, all := insns, Sources(jumps);
      var i := 0;
      while i < |jumps|
        invariant i <= |jumps| == |all| && Sources(jumps) == all
        invariant insns == FoldAll(code, all[..i])
        invariant forall k: nat :: k < i ==> FoldTarget(code, all, k, jumps[k].target)
      {
        assert all[i] == jumps[i].source;
        PrefixReady(code, starts, all, i);
        ghost var before := jumps;
        var targetLabel := FoldJump(jumps[i].source, starts);
        jumps := jumps[i := jumps[i].(target := targetLabel)];
        SourcesStay(before, i, targetLabel);
        i := i + 1;
      }
      assert all[..i] == all;
      forall k: nat | k < |jumps|
        ensures JumpFolded(code, all, k, jumps[k].target, insns)
      {
        AllLeadToEnds(code, starts, all, k);
      }
    }

    /** The words at their new positions, and where each one went. */
    method Relocate(ghost starts: set<nat>, ghost t: Table) returns (newinsns: seq<Word>, remap: array<nat>)
      requires Increasing(jumps) && Describes(t, jumps) && Layout(insns, starts)
      requires forall k <- t :: k in starts
      ensures Expanded(insns, t, newinsns, |insns|, 0)
      ensures remap.Length == |insns| && Remapped(remap[..], t, |insns|)
    {
      remap := new nat[|insns|];
      newinsns := [];
      var currentJump: nat := 0;
      var i: nat := 0;
      while i < |insns|
        invariant i <= |insns| == remap.Length && (i == |insns| || i in starts)
        invariant currentJump <= |jumps|
        invariant forall j :: 0 <= j < currentJump ==> jumps[j].source < i
        invariant forall j :: currentJump <= j < |jumps| ==> i <= jumps[j].source
        invariant Expanded(insns, t, newinsns, i, 0)
        invariant Remapped(remap[..], t, i)
      {
        assert FollowedIn(insns, i, starts);
        newinsns, currentJump := RelocateOne(newinsns, currentJump, i, remap, starts, t);
        i := i + OpLength(insns[i].op);
      }
    }

    /** One instruction: its trampoline if it has one, then its words. */
    method RelocateOne(copied: seq<Word>, currentJump: nat, i: nat, remap: array<nat>, ghost starts: set<nat>, ghost t: Table)
      returns (newinsns: seq<Word>, nextJump: nat)
      requires currentJump <= |jumps| && i < |insns| == remap.Length && FollowedIn(insns, i, starts)
      requires Increasing(jumps) && Describes(t, jumps) && forall k <- t :: k in starts
      requires forall j :: 0 <= j < currentJump ==> jumps[j].source < i
      requires forall j :: currentJump <= j < |jumps| ==> i <= jumps[j].source
      requires Expanded(insns, t, copied, i, 0) && Remapped(remap[..], t, i)
      modifies remap
      ensures nextJump <= |jumps|
      ensures forall j :: 0 <= j < nextJump ==> jumps[j].source < i + OpLength(insns[i].op)
      ensures forall j :: nextJump <= j < |jumps| ==> i + OpLength(insns[i].op) <= jumps[j].source
      ensures Expanded(insns, t, newinsns, i + OpLength(insns[i].op), 0) && Remapped(remap[..], t, i + OpLength(insns[i].op))
    {
      ghost var before := remap[..];
      var oplen := OpLength(insns[i].op);
      CopiesInstruction(insns, starts, t, copied, i, i + oplen);
      newinsns, nextJump := PutTrampoline(copied, currentJump, i, starts, t);
      ghost var length := |newinsns|;
      newinsns := CopyWords(newinsns, remap, i, oplen);
      RemappedOn(before, remap[..], t, i, i + oplen, length);
    }

    /** In front of a far jump, its trampoline; past any jump, the next one in the list. */
    method PutTrampoline(copied: seq<Word>, currentJump: nat, i: nat, ghost starts: set<nat>, ghost t: Table)
      returns (newinsns: seq<Word>, nextJump: nat)
      requires currentJump <= |jumps| && i < |insns| && FollowedIn(insns, i, starts)
      requires Increasing(jumps) && Describes(t, jumps) && forall k <- t :: k in starts
      requires forall j :: 0 <= j < currentJump ==> jumps[j].source < i
      requires forall j :: currentJump <= j < |jumps| ==> i <= jumps[j].source
      ensures newinsns == copied + Trampoline(insns, t, i)
      ensures nextJump <= |jumps|
      ensures forall j :: 0 <= j < nextJump ==> jumps[j].source < i + OpLength(insns[i].op)
      ensures forall j :: nextJump <= j < |jumps| ==> i + OpLength(insns[i].op) <= jumps[j].source
    {
      newinsns, nextJump := copied, currentJump;
      AtJump(jumps, t, currentJump, i);
      if currentJump < |jumps| && jumps[currentJump].source == i {
        var offset := jumps[currentJump].target - jumps[currentJump].source - 1;
        if offset > FAR || offset < -FAR {
          newinsns := newinsns + [OverLongJump(insns[i].line)];
          newinsns := newinsns + [Word(LOP_JUMPX, 0, 0, insns[i].line)];
        }
        nextJump := nextJump + 1;
      }
      Passed(jumps, currentJump, nextJump, insns, starts, t, i);
    }

    /** Copies an instruction and notes where its words went. */
    method CopyWords(copied: seq<Word>, remap: array<nat>, first: nat, oplen: nat) returns (newinsns: seq<Word>)
      requires first + oplen <= |insns| == remap.Length
      modifies remap
      ensures newinsns == copied + insns[first..first + oplen]
      ensures remap[..first] == old(remap[..first])
      ensures forall k :: first <= k < first + oplen ==> remap[..][k] == |copied| + k - first
    {
      newinsns := copied;
      var i := first;
      for j := 0 to oplen
        invariant i == first + j
        invariant newinsns == copied + insns[first..i]
        invariant forall k :: 0 <= k < first ==> remap[k] == old(remap[k])
        invariant forall k :: first <= k < i ==> remap[k] == |copied| + k - first
      {
        remap[i] := |newinsns|;
        newinsns := newinsns + [insns[i]];
        i := i + 1;
      }
    }

    /** All offsets computed again, in the relocated code. */
    method Repatch(ghost t: Table, relocated: seq<Word>, remap: array<nat>) returns (newinsns: seq<Word>)
      requires Increasing(jumps) && Describes(t, jumps)
      requires forall j <- jumps :: j.source < |insns| && j.target < |insns|
      requires Expanded(insns, t, relocated, |insns|, 0)
      requires remap.Length == |insns| && Remapped(remap[..], t, |insns|)
      ensures Expanded(insns, t, newinsns, |insns|, |insns|)
    {
      newinsns := relocated;
      NothingBefore(insns, t, newinsns, jumps);
      var c := 0;
      while c < |jumps|
        invariant c <= |jumps|
        invariant Expanded(insns, t, newinsns, |insns|, NextSource(jumps, c, |insns|))
      {
        var jump := jumps[c];
        assert jump in jumps;
        var offset := jump.target - jump.source - 1;
        var at := remap[jump.source];
        assert remap[..][jump.source] == remap[jump.source] && remap[..][jump.target] == remap[jump.target];
        var newOffset := remap[jump.target] as int - at - 1;
        ghost var limit := NextSource(jumps, c + 1, |insns|);
        NoneUpToNext(jumps, t, c, |insns|);
        PatchesJump(insns, t, newinsns, jump.source, limit);
        if offset > FAR || offset < -FAR {
          newinsns := newinsns[at - 1 := SetE(newinsns[at - 1], newOffset + 1)][at := SetD(newinsns[at], -2)];
        } else {
          newinsns := newinsns[at := SetD(newinsns[at], newOffset)];
        }
        c := c + 1;
      }
    }

    /** Leaves the code alone unless there are long jumps; then puts trampolines and computes all offsets again. */
    method ExpandJumps(ghost starts: set<nat>, ghost t: Table)
      requires hasLongJumps ==> Distinct(jumps) && Describes(t, jumps) && Layout(insns, starts) && Recorded(insns, starts, t)
      modifies this`insns, this`jumps
      ensures !hasLongJumps ==> insns == old(insns) && jumps == old(jumps)
      ensures hasLongJumps ==> Expanded(old(insns), t, insns, |old(insns)|, |old(insns)|)
      ensures hasLongJumps ==> multiset(jumps) == multiset(old(jumps)) && Increasing(jumps)
    {
      if !hasLongJumps {
        return;
      }
      SortedIncreasing(jumps);
      SameMembers(Sorted(jumps), jumps);
      jumps := Sorted(jumps);
      var newinsns, remap := Relocate(starts, t);
      newinsns := Repatch(t, newinsns, remap);
      insns := newinsns;
    }
  }
}
