/** References into the registry: a free list threaded through the slots themselves. */
module Registry {

  datatype Value = Nil | Number(n: nat) | Thing(id: nat)

  type Slots = map<nat, Value>

  const REFNIL: nat := 0

  // ----- integer keys -----

  function UpTo(n: nat): set<nat> {
    if n == 0 then {} else UpTo(n - 1) + {n}
  }

  lemma {:induction false} InUpTo(n: nat, k: nat)
    ensures k in UpTo(n) <==> 0 < k <= n
  {
    if n > 0 {
      InUpTo(n - 1, k);
    }
  }

  lemma {:induction false} SizeOfUpTo(n: nat)
    ensures |UpTo(n)| == n
  {
    if n > 0 {
      SizeOfUpTo(n - 1);
      InUpTo(n - 1, n);
    }
  }

  /** The integer keys are one to `n`, and no slot is nil. */
  ghost predicate Dense(slots: Slots, n: nat) {
    slots.Keys == UpTo(n) && forall k <- slots :: slots[k] != Nil
  }

  lemma DenseKey(slots: Slots, n: nat, k: nat)
    requires Dense(slots, n)
    ensures k in slots <==> 0 < k <= n
  {
    InUpTo(n, k);
    assert k in slots <==> k in slots.Keys;
  }

  lemma DenseSize(slots: Slots, n: nat)
    requires Dense(slots, n)
    ensures |slots| == n
  {
    SizeOfUpTo(n);
    assert |slots| == |slots.Keys|;
  }

  /** Writing a slot in range keeps the keys; writing the next one adds it. */
  lemma DenseAfter(slots: Slots, n: nat, k: nat, v: Value)
    requires Dense(slots, n) && 0 < k <= n + 1 && v != Nil
    ensures Dense(slots[k := v], if k == n + 1 then n + 1 else n)
  {
    DenseKey(slots, n, k);
    assert slots[k := v].Keys == slots.Keys + {k};
  }

  /** The length of the contiguous part from one on. */
  function Length(slots: Slots, i: nat): nat
    requires i <= |slots|
    decreases |slots| - i
  {
    if i < |slots| && i + 1 in slots && slots[i + 1] != Nil then Length(slots, i + 1) else i
  }

  lemma {:induction false} LengthIs(slots: Slots, i: nat, n: nat)
    requires i <= n && Dense(slots, n)
    ensures n == |slots| && Length(slots, i) == n
    decreases n - i
  {
    DenseSize(slots, n);
    if i < n {
      DenseKey(slots, n, i + 1);
      LengthIs(slots, i + 1, n);
    }
  }

  // ----- the registry and its operations -----

  datatype State = State(slots: Slots, free: nat)

  function Ref(s: State, v: Value): (r: (State, nat)) {
    if v == Nil then (s, REFNIL)
    else
      var ref := if s.free != 0 then s.free else Length(s.slots, 0) + 1;
      var next := if s.free != 0 && ref in s.slots && s.slots[ref].Number? then s.slots[ref].n else 0;
      (State(s.slots[ref := v], next), ref)
  }

  /** References up to zero stand for nil, or for no reference at all. */
  function Unref(s: State, ref: int): State {
    if ref <= REFNIL then s else State(s.slots[ref := Number(s.free)], ref)
  }

  /** What users may rely on: which references are live, and what they refer to. */
  type Live = map<nat, Value>

  function Head(list: seq<nat>): nat {
    if list == [] then 0 else list[0]
  }

  /** The slots in `list` are linked one to the next, and the last one to zero. */
  predicate Linked(slots: Slots, list: seq<nat>) {
    list == [] || (list[0] in slots && slots[list[0]] == Number(Head(list[1..])) && Linked(slots, list[1..]))
  }

  predicate NoRepeat(list: seq<nat>) {
    forall i, j :: 0 <= i < j < |list| ==> list[i] != list[j]
  }

  /**
   Slots 1 to `n` are all in use, none of them nil: the live ones hold their values, and the dead ones form one chain
   without repetition that ends in zero.
   */
  ghost predicate Valid(s: State, live: Live, list: seq<nat>, n: nat) {
    && Dense(s.slots, n)
    && s.free == Head(list) && Linked(s.slots, list) && NoRepeat(list)
    && Held(s.slots, live, list, n)
  }

  ghost predicate Held(slots: Slots, live: Live, list: seq<nat>, n: nat) {
    && (forall k: nat :: 0 < k <= n ==> (k in live <==> k !in list))
    && (forall k <- live :: 0 < k <= n && k in slots && slots[k] == live[k] && live[k] != Nil)
    && (forall k <- list :: 0 < k <= n)
  }

  lemma {:induction false} LinkedElsewhere(slots: Slots, list: seq<nat>, k: nat, v: Value)
    requires Linked(slots, list) && k !in list
    ensures Linked(slots[k := v], list)
    decreases |list|
  {
    if list != [] {
      LinkedElsewhere(slots, list[1..], k, v);
    }
  }

  lemma TailOf(list: seq<nat>)
    requires list != [] && NoRepeat(list)
    ensures NoRepeat(list[1..]) && list[0] !in list[1..]
    ensures forall k :: k in list <==> k == list[0] || k in list[1..]
  {
    assert list == [list[0]] + list[1..];
  }

  lemma HeadRepeats(list: seq<nat>, k: nat)
    requires NoRepeat(list) && k !in list
    ensures NoRepeat([k] + list)
  {
  }

  lemma FirstOfList(s: State, live: Live, list: seq<nat>, n: nat)
    requires Valid(s, live, list, n)
    ensures s.free == 0 <==> list == []
    ensures list != [] ==> s.free == list[0] && 0 < list[0] <= n && list[0] in s.slots && list[0] !in live
    ensures list != [] ==> s.slots[list[0]] == Number(Head(list[1..]))
  {
    if list != [] {
      assert list[0] in list;
    }
  }

  /** With a free slot, that one is taken off the list. */
  lemma ReusesSlot(s: State, live: Live, list: seq<nat>, n: nat, v: Value)
    requires Valid(s, live, list, n) && v != Nil && list != []
    ensures
      var ref := list[0];
      ref !in live && Valid(State(s.slots[ref := v], Head(list[1..])), live[ref := v], list[1..], n)
  {
    var ref, rest := list[0], list[1..];
    FirstOfList(s, live, list, n);
    TailOf(list);
    LinkedElsewhere(s.slots, rest, ref, v);
    DenseAfter(s.slots, n, ref, v);
  }

  /** Without one, the slots grow. */
  lemma GrowsSlots(s: State, live: Live, n: nat, v: Value)
    requires Valid(s, live, [], n) && v != Nil
    ensures n + 1 !in live && Valid(State(s.slots[n + 1 := v], 0), live[n + 1 := v], [], n + 1)
  {
    DenseAfter(s.slots, n, n + 1, v);
  }

  lemma RefTakes(s: State, v: Value, ref: nat, next: nat)
    requires v != Nil && s.free == ref != 0 && ref in s.slots && s.slots[ref] == Number(next)
    ensures Ref(s, v) == (State(s.slots[ref := v], next), ref)
  {
  }

  lemma RefAppends(s: State, v: Value, n: nat)
    requires v != Nil && s.free == 0 && Length(s.slots, 0) == n
    ensures Ref(s, v) == (State(s.slots[n + 1 := v], 0), n + 1)
  {
  }

  /** A new reference is no live one, and refers to the value; no other one changes. */
  lemma RefIsFresh(s: State, live: Live, list: seq<nat>, n: nat, v: Value) returns (list': seq<nat>, n': nat)
    requires Valid(s, live, list, n) && v != Nil
    ensures
      var (s', ref) := Ref(s, v);
      ref != REFNIL && ref !in live && Valid(s', live[ref := v], list', n') && n <= n'
  {
    FirstOfList(s, live, list, n);
    if list != [] {
      RefTakes(s, v, list[0], Head(list[1..]));
      ReusesSlot(s, live, list, n, v);
      list', n' := list[1..], n;
    } else {
      LengthIs(s.slots, 0, n);
      RefAppends(s, v, n);
      GrowsSlots(s, live, n, v);
      list', n' := list, n + 1;
    }
  }

  /** A released reference is dead; no other one changes. */
  lemma UnrefReleases(s: State, live: Live, list: seq<nat>, n: nat, ref: nat) returns (list': seq<nat>)
    requires Valid(s, live, list, n) && ref in live
    ensures Valid(Unref(s, ref), live - {ref}, list', n)
  {
    list' := [ref] + list;
    LinkedElsewhere(s.slots, list, ref, Number(s.free));
    HeadRepeats(list, ref);
    assert list'[1..] == list;
    DenseAfter(s.slots, n, ref, Number(s.free));
  }

  // ----- releasing what is not live -----

  /** Released twice, a slot links to itself, and is then handed out twice. */
  lemma DoubleRelease(s: State, live: Live, list: seq<nat>, n: nat, ref: nat, v: Value, v': Value)
    requires Valid(s, live, list, n) && ref in live && v != Nil && v' != Nil
    ensures
      var twice := Unref(Unref(s, ref), ref);
      var (once, first) := Ref(twice, v);
      && ref in twice.slots && twice.slots[ref] == Number(ref) && twice.free == ref
      && first == ref && Ref(once, v').1 == ref
  {
  }

  /** The next slot that was never used can be released: that only puts it on the list. */
  lemma AppendsHeld(slots: Slots, live: Live, list: seq<nat>, n: nat, v: Value)
    requires Held(slots, live, list, n)
    ensures Held(slots[n + 1 := v], live, [n + 1] + list, n + 1)
  {
    var list' := [n + 1] + list;
    forall k: nat | 0 < k <= n + 1
      ensures k in live <==> k !in list'
    {
    }
  }

  lemma UnrefAppends(s: State, live: Live, list: seq<nat>, n: nat)
    requires Valid(s, live, list, n)
    ensures Valid(Unref(s, n + 1), live, [n + 1] + list, n + 1)
  {
    var ref := n + 1;
    AppendsHeld(s.slots, live, list, n, Number(s.free));
    LinkedElsewhere(s.slots, list, ref, Number(s.free));
    HeadRepeats(list, ref);
    assert ([ref] + list)[1..] == list;
    DenseAfter(s.slots, n, ref, Number(s.free));
  }

  /** Entry `k` of a chain names its successor. */
  lemma {:induction false} LinkAt(slots: Slots, list: seq<nat>, k: nat)
    requires Linked(slots, list) && k < |list|
    ensures list[k] in slots && slots[list[k]] == Number(if k + 1 < |list| then list[k + 1] else 0)
    decreases k
  {
    if k > 0 {
      LinkAt(slots, list[1..], k - 1);
    }
  }

  /** Any chain from a dead slot released again follows the old one, and so comes back to that slot. */
  lemma {:induction false} ChainFollows(s: State, live: Live, list: seq<nat>, n: nat, at: nat, list': seq<nat>, k: nat)
    requires Valid(s, live, list, n) && at < |list| && k <= at
    requires Linked(Unref(s, list[at]).slots, list') && Head(list') == list[at]
    ensures k + 1 < |list'| && list'[k + 1] == list[k]
    decreases k
  {
    var ref := list[at];
    assert ref in list && ref > 0;
    assert list[k] in list;
    if k == 0 {
      LinkAt(Unref(s, ref).slots, list', 0);
    } else {
      ChainFollows(s, live, list, n, at, list', k - 1);
      LinkAt(s.slots, list, k - 1);
      assert list[k - 1] != ref;
      LinkAt(Unref(s, ref).slots, list', k);
    }
  }

  lemma ComesBack(s: State, live: Live, list: seq<nat>, n: nat, at: nat, list': seq<nat>)
    requires Valid(s, live, list, n) && at < |list|
    requires Linked(Unref(s, list[at]).slots, list') && Head(list') == list[at]
    ensures !NoRepeat(list')
  {
    ChainFollows(s, live, list, n, at, list', at);
    assert list'[0] == list'[at + 1];
  }

  lemma DeadReleaseBreaks(s: State, live: Live, list: seq<nat>, n: nat, ref: nat, live': Live, list': seq<nat>, n': nat)
    requires Valid(s, live, list, n) && ref in list
    ensures !Valid(Unref(s, ref), live', list', n')
  {
    var at :| 0 <= at < |list| && list[at] == ref;
    if Linked(Unref(s, ref).slots, list') && Head(list') == ref {
      ComesBack(s, live, list, n, at, list');
    }
  }

  lemma FarReleaseBreaks(s: State, live: Live, list: seq<nat>, n: nat, ref: nat, live': Live, list': seq<nat>, n': nat)
    requires Valid(s, live, list, n) && ref > n + 1
    ensures !Valid(Unref(s, ref), live', list', n')
  {
    var slots := Unref(s, ref).slots;
    if Dense(slots, n') {
      DenseKey(slots, n', ref);
      DenseKey(slots, n', n + 1);
      DenseKey(s.slots, n, n + 1);
      assert false;
    }
  }

  ghost predicate Orderly(s: State) {
    exists live, list, n :: Valid(s, live, list, n)
  }

  /**
   Releasing leaves the registry orderly if and only if the reference is none, or live, or the next one that was never
   made; releasing a dead one, or one further out, does not.
   */
  lemma UnrefExactly(s: State, live: Live, list: seq<nat>, n: nat, ref: int)
    requires Valid(s, live, list, n)
    ensures Orderly(Unref(s, ref)) <==> ref <= REFNIL || ref in live || ref == n + 1
  {
    if ref <= REFNIL {
      assert Valid(Unref(s, ref), live, list, n);
    } else if ref in live {
      var list' := UnrefReleases(s, live, list, n, ref);
    } else if ref == n + 1 {
      UnrefAppends(s, live, list, n);
    } else {
      forall live', list', n'
        ensures !Valid(Unref(s, ref), live', list', n')
      {
        if ref <= n {
          DeadReleaseBreaks(s, live, list, n, ref, live', list', n');
        } else {
          FarReleaseBreaks(s, live, list, n, ref, live', list', n');
        }
      }
    }
  }

  // ----- runs -----

  datatype Operation = MakeRef(v: Value) | Release(ref: int)

  /** Only live references are released; releasing no reference at all is allowed. */
  predicate Allowed(live: Live, op: Operation) {
    op.Release? ==> op.ref <= REFNIL || op.ref in live
  }

  function Do(s: State, op: Operation): State {
    match op
    case MakeRef(v) => Ref(s, v).0
    case Release(r) => Unref(s, r)
  }

  function LiveAfter(s: State, live: Live, op: Operation): Live {
    match op
    case MakeRef(v) => if v == Nil then live else live[Ref(s, v).1 := v]
    case Release(r) => if r <= REFNIL then live else live - {r as nat}
  }

  predicate AllAllowed(s: State, live: Live, ops: seq<Operation>)
    decreases |ops|
  {
    ops == [] || (Allowed(live, ops[0]) && AllAllowed(Do(s, ops[0]), LiveAfter(s, live, ops[0]), ops[1..]))
  }

  function DoAll(s: State, ops: seq<Operation>): State
    decreases |ops|
  {
    if ops == [] then s else DoAll(Do(s, ops[0]), ops[1..])
  }

  function LiveAfterAll(s: State, live: Live, ops: seq<Operation>): Live
    decreases |ops|
  {
    if ops == [] then live else LiveAfterAll(Do(s, ops[0]), LiveAfter(s, live, ops[0]), ops[1..])
  }

  lemma OperationKeeps(s: State, live: Live, list: seq<nat>, n: nat, op: Operation) returns (list': seq<nat>, n': nat)
    requires Valid(s, live, list, n) && Allowed(live, op)
    ensures Valid(Do(s, op), LiveAfter(s, live, op), list', n')
    ensures op.MakeRef? && op.v != Nil ==> Ref(s, op.v).1 != REFNIL && Ref(s, op.v).1 !in live
  {
    list', n' := list, n;
    match op
    case MakeRef(v) =>
      if v != Nil {
        list', n' := RefIsFresh(s, live, list, n, v);
      }
    case Release(r) =>
      if r > REFNIL {
        list' := UnrefReleases(s, live, list, n, r);
      }
  }

  /** No reference that is made on the way is live already, and each reads back its value at once. */
  predicate AllFresh(s: State, live: Live, ops: seq<Operation>)
    decreases |ops|
  {
    ops == [] || (
      && (ops[0].MakeRef? && ops[0].v != Nil ==>
            var (s', ref) := Ref(s, ops[0].v);
            ref != REFNIL && ref !in live && ref in s'.slots && s'.slots[ref] == ops[0].v)
      && AllFresh(Do(s, ops[0]), LiveAfter(s, live, ops[0]), ops[1..]))
  }

  /**
   Over any run from an orderly registry the slots stay in order, every live reference reads back its value, and no live
   reference is handed out again.
   */
  lemma {:induction false} RunIsSafe(s: State, live: Live, list: seq<nat>, n: nat, ops: seq<Operation>) returns (list': seq<nat>, n': nat)
    requires Valid(s, live, list, n) && AllAllowed(s, live, ops)
    ensures Valid(DoAll(s, ops), LiveAfterAll(s, live, ops), list', n')
    ensures AllFresh(s, live, ops)
    decreases |ops|
  {
    if ops == [] {
      list', n' := list, n;
    } else {
      var l, m := OperationKeeps(s, live, list, n, ops[0]);
      list', n' := RunIsSafe(Do(s, ops[0]), LiveAfter(s, live, ops[0]), l, m, ops[1..]);
    }
  }

  lemma EmptyIsValid()
    ensures Valid(State(map[], 0), map[], [], 0)
  {
    var slots: Slots := map[];
    assert slots.Keys == UpTo(0);
  }

  // ----- the interpreter's fields -----

  class LuaState {
    var registry: Slots
    var registryfree: nat
    ghost var live: Live
    ghost var list: seq<nat>
    ghost var n: nat

    constructor ()
      ensures Ok() && live == map[]
    {
      registry, registryfree, live, list, n := map[], 0, map[], [], 0;
      new;
      EmptyIsValid();
    }

    ghost predicate Ok()
      reads this
    {
      Valid(State(registry, registryfree), live, list, n)
    }

    /** A reference to a value that is not nil is one that is not live. */
    method Ref(p: Value) returns (ref: nat)
      requires Ok()
      modifies this
      ensures Ok()
      ensures p == Nil ==> ref == REFNIL && live == old(live)
      ensures p != Nil ==> ref != REFNIL && ref !in old(live) && live == old(live)[ref := p]
    {
      ref := REFNIL;
      if p != Nil {
        ghost var l, m := RefIsFresh(State(registry, registryfree), live, list, n, p);
        FirstOfList(State(registry, registryfree), live, list, n);
        if registryfree != 0 {
          RefTakes(State(registry, registryfree), p, list[0], Head(list[1..]));
          ref := registryfree;
        } else {
          LengthIs(registry, 0, n);
          RefAppends(State(registry, registryfree), p, n);
          ref := Length(registry, 0);
          ref := ref + 1;
        }
        if registryfree != 0 {
          registryfree := registry[ref].n;
        }
        registry := registry[ref := p];
        live, list, n := live[ref := p], l, m;
      }
    }

    method Unref(ref: int)
      requires Ok() && (ref <= REFNIL || ref in live)
      modifies this
      ensures Ok() && live == if ref <= REFNIL then old(live) else old(live) - {ref as nat}
    {
      if ref <= REFNIL {
        return;
      }
      ghost var l := UnrefReleases(State(registry, registryfree), live, list, n, ref);
      registry := registry[ref := Number(registryfree)];
      registryfree := ref;
      live, list := live - {ref as nat}, l;
    }

    /** A live reference reads back its value. */
    method Get(ref: nat) returns (v: Value)
      requires Ok() && ref in live
      ensures v == live[ref]
    {
      v := registry[ref];
    }
  }
}
