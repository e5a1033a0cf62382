/** When assignments compile: what their targets, values and stores need beyond what the expressions in them do. */
module AssignLimits {
  import opened Results
  import opened LuaSource
  import opened RegisterVm
  import opened EmitSpec
  import opened EmitLimits
  import opened AssignSpec

  // ----- what an assignment needs -----

  /** Registers for the operands of a target. */
  function TargetRegs(e: Expr): nat {
    match e
    case IndexName(x, _) => AutoRegs(x)
    case IndexExpr(x, i) => PairRegs(x, i)
    case _ => 0
  }

  /** Those that the target keeps. */
  function TargetHeld(e: Expr): nat {
    match e
    case IndexName(x, _) => Held(x)
    case IndexExpr(x, i) => Held(x) + Held(i)
    case _ => 0
  }

  function TargetsRegs(es: seq<Expr>): nat {
    if es == [] then 0 else Max(TargetRegs(es[0]), TargetHeld(es[0]) + TargetsRegs(es[1..]))
  }

  function TargetsHeld(es: seq<Expr>): nat {
    if es == [] then 0 else TargetHeld(es[0]) + TargetsHeld(es[1..])
  }

  /** Every local among the targets may need a temporary. */
  function LocalTargets(es: seq<Expr>): nat {
    if es == [] then 0 else (if es[0].Local? then 1 else 0) + LocalTargets(es[1..])
  }

  /** The value of a local goes where the local, or its temporary, is; any other value stays in a register of its own. */
  function ValueRegs(target: Expr, e: Expr): nat {
    if target.Local? then ExprRegs(e, false) else AutoRegs(e)
  }

  function ValueHeld(target: Expr, e: Expr): nat {
    if target.Local? then 0 else Held(e)
  }

  /** The values of the targets; with too few values, the last one and its nils are side by side. */
  function ValuesRegs(vars: seq<Expr>, values: seq<Expr>): nat
    decreases |values|
  {
    if vars == [] || values == [] then 0
    else if |values| == 1 && |vars| > 1 then |vars| % BYTE + ExprRegs(values[0], true)
    else Max(ValueRegs(vars[0], values[0]), ValueHeld(vars[0], values[0]) + ValuesRegs(vars[1..], values[1..]))
  }

  function ValuesHeld(vars: seq<Expr>, values: seq<Expr>): nat
    decreases |values|
  {
    if vars == [] || values == [] then 0
    else if |values| == 1 && |vars| > 1 then |vars| % BYTE
    else ValueHeld(vars[0], values[0]) + ValuesHeld(vars[1..], values[1..])
  }

  function SidesRegs(es: seq<Expr>): nat {
    if es == [] then 0 else Max(AutoRegs(es[0]), SidesRegs(es[1..]))
  }

  function AssignRegs(vars: seq<Expr>, values: seq<Expr>): nat {
    if |vars| == 1 && |values| == 1 then
      Max(TargetRegs(vars[0]), TargetHeld(vars[0]) + ValueRegs(vars[0], values[0]))
    else
      var n := Smaller(|vars|, |values|);
      var computed := Max(ValuesRegs(vars, values), ValuesHeld(vars, values) + SidesRegs(values[n..]));
      Max(TargetsRegs(vars), TargetsHeld(vars) + (LocalTargets(vars) + computed))
  }

  /** Constants of the operands. */
  function TargetConsts(e: Expr): nat {
    match e
    case IndexName(x, _) => MaxConsts(x)
    case IndexExpr(x, i) => MaxConsts(x) + MaxConsts(i)
    case _ => 0
  }

  function TargetsConsts(es: seq<Expr>): nat {
    if es == [] then 0 else TargetConsts(es[0]) + TargetsConsts(es[1..])
  }

  /** Words for the operands. */
  function TargetInsns(e: Expr): nat {
    match e
    case IndexName(x, _) => MaxInsns(x)
    case IndexExpr(x, i) => MaxInsns(x) + MaxInsns(i)
    case _ => 0
  }

  function TargetsInsns(es: seq<Expr>): nat {
    if es == [] then 0 else TargetInsns(es[0]) + TargetsInsns(es[1..])
  }

  /** A store adds the name at most. */
  function AssignConsts(vars: seq<Expr>, values: seq<Expr>): nat {
    TargetsConsts(vars) + ListConsts(values) + |vars|
  }

  /** A target takes up to four words for its nil, its store and its move. */
  function AssignInsns(vars: seq<Expr>, values: seq<Expr>): nat {
    TargetsInsns(vars) + ListInsns(values) + 4 * |vars|
  }

  // ----- targets -----

  predicate ScopedTarget(c: Context, e: Expr) {
    IsTarget(e) && Scoped(c, e) && TargetInsns(e) < 0x80_0000
  }

  predicate AllTargets(c: Context, es: seq<Expr>) {
    es == [] || (ScopedTarget(c, es[0]) && AllTargets(c, es[1..]))
  }

  /** The operands of a target, its store not yet included. */
  lemma {:induction false} TargetCompiles(c: Context, s: Builder, e: Expr)
    requires ScopedTarget(c, e) && Room(s, TargetRegs(e), TargetConsts(e))
    ensures LValueCode(c, s, e).Ok?
    ensures Takes(s, LValueCode(c, s, e).value.0, TargetRegs(e), TargetConsts(e), TargetInsns(e))
    ensures LValueCode(c, s, e).value.0.regTop <= s.regTop + TargetHeld(e)
    ensures LValueCode(c, s, e).value.1.LvLocal? <==> e.Local?
  {
    match e
    case Local(_) =>
    case Upvalue(_) =>
    case Global(_) =>
    case IndexName(x, _) => AutoCompiles(c, s, x);
    case IndexExpr(x, i) =>
      AutoCompiles(c, s, x);
      PairCompiles(c, s, x, i);
      AutoCompiles(c, AutoCode(c, s, x).value.0, i);
  }

  /** The l-values are of the kinds of the targets. */
  predicate SameKinds(vars: seq<Expr>, lvs: seq<LValue>) {
    |vars| == |lvs| && forall k :: 0 <= k < |vars| ==> (lvs[k].LvLocal? <==> vars[k].Local?)
  }

  lemma {:induction false} TargetsCompile(c: Context, s: Builder, es: seq<Expr>)
    requires AllTargets(c, es) && (forall e <- es :: IsTarget(e)) && Room(s, TargetsRegs(es), TargetsConsts(es))
    ensures LValuesCode(c, s, es).Ok?
    ensures Takes(s, LValuesCode(c, s, es).value.0, TargetsRegs(es), TargetsConsts(es), TargetsInsns(es))
    ensures LValuesCode(c, s, es).value.0.regTop <= s.regTop + TargetsHeld(es)
    ensures SameKinds(es, LValuesCode(c, s, es).value.1)
    decreases |es|
  {
    if es != [] {
      TargetCompiles(c, s, es[0]);
      var (s1, lv) := LValueCode(c, s, es[0]).value;
      TargetsCompile(c, s1, es[1..]);
      var (s2, lvs) := LValuesCode(c, s1, es[1..]).value;
      TakesBoth(s, s1, s2, TargetHeld(es[0]), TargetRegs(es[0]), TargetConsts(es[0]), TargetInsns(es[0]),
                TargetsRegs(es[1..]), TargetsConsts(es[1..]), TargetsInsns(es[1..]));
    }
  }

  // ----- temporaries and values -----

  function LocalsFrom(lvs: seq<LValue>, i: nat): nat
    requires i <= |lvs|
    decreases |lvs| - i
  {
    if i == |lvs| then 0 else (if lvs[i].LvLocal? then 1 else 0) + LocalsFrom(lvs, i + 1)
  }

  lemma {:induction false} ConflictsCompile(c: Context, s: Builder, lvs: seq<LValue>, values: seq<Expr>, i: nat)
    requires i <= |lvs| && Room(s, LocalsFrom(lvs, i), 0)
    ensures ConflictRegs(c, s, lvs, values, i).Ok?
    ensures Takes(s, ConflictRegs(c, s, lvs, values, i).value.0, LocalsFrom(lvs, i), 0, 0)
    ensures ConflictRegs(c, s, lvs, values, i).value.0.regTop <= s.regTop + LocalsFrom(lvs, i)
    decreases |lvs| - i
  {
    if i < |lvs| {
      if lvs[i].LvLocal? && InConflict(c, lvs, values, lvs[i].reg) {
        ConflictsCompile(c, AllocReg(s, 1).value, lvs, values, i + 1);
      } else {
        ConflictsCompile(c, s, lvs, values, i + 1);
      }
    }
  }

  lemma {:induction false} SameCount(vars: seq<Expr>, lvs: seq<LValue>, i: nat)
    requires SameKinds(vars, lvs) && i <= |vars|
    ensures LocalsFrom(lvs, i) == LocalTargets(vars[i..])
    decreases |vars| - i
  {
    if i < |vars| {
      SameCount(vars, lvs, i + 1);
      assert vars[i..][1..] == vars[i + 1..];
    }
  }

  predicate AllSmall(es: seq<Expr>) {
    es == [] || (MaxInsns(es[0]) < 0x80_0000 && AllSmall(es[1..]))
  }

  lemma {:induction false} AllAt(c: Context, es: seq<Expr>, i: nat)
    requires AllScoped(c, es) && AllSmall(es) && i < |es|
    ensures Scoped(c, es[i]) && MaxInsns(es[i]) < MAX_JUMP_DISTANCE
    decreases i
  {
    if i > 0 {
      AllAt(c, es[1..], i - 1);
    }
  }

  lemma ValueCompiles(c: Context, s: Builder, target: Expr, reg: Option<nat>, e: Expr)
    requires (reg.Some? <==> target.Local?) && Enough(c, s, e, ValueRegs(target, e))
    ensures ValueCode(c, s, reg, e).Ok?
    ensures Takes(s, ValueCode(c, s, reg, e).value.0, ValueRegs(target, e), MaxConsts(e), MaxInsns(e))
    ensures ValueCode(c, s, reg, e).value.0.regTop == s.regTop + ValueHeld(target, e)
  {
    if reg.Some? {
      ExprCompiles(c, s, e, reg.value, false);
    } else {
      AutoCompiles(c, s, e);
    }
  }

  lemma {:induction false} NilsTake(s: Builder, target: nat, count: nat)
    ensures Takes(s, LoadNils(s, target, count), 0, 0, count)
    decreases count
  {
    if count > 0 {
      NilsTake(EmitABC(s, LOADNIL, target, 0, 0), target + 1, count - 1);
    }
  }

  /** The last of too few values. */
  lemma LastCompiles(c: Context, s: Builder, vars: seq<Expr>, lvs: seq<LValue>, conflict: seq<Option<nat>>, values: seq<Expr>, i: nat)
    requires |lvs| == |conflict| == |vars| && i + 1 == |values| < |lvs| && AllScoped(c, values) && AllSmall(values)
    requires Room(s, (|vars| - i) % BYTE + ExprRegs(values[i], true), MaxConsts(values[i]))
    ensures ValuesCode(c, s, lvs, conflict, values, i).Ok?
    ensures
      var t := ValuesCode(c, s, lvs, conflict, values, i).value.0;
      && Takes(s, t, (|vars| - i) % BYTE + ExprRegs(values[i], true), MaxConsts(values[i]), MaxInsns(values[i]) + |vars| - i)
      && t.regTop == s.regTop + (|vars| - i) % BYTE
  {
    AllAt(c, values, i);
    var count := (|vars| - i) % BYTE;
    assert |lvs| - |values| + 1 == |vars| - i;
    LastTakes(c, s, values[i], count);
  }

  lemma LastTakes(c: Context, s: Builder, e: Expr, count: nat)
    requires Scoped(c, e) && MaxInsns(e) < 0x80_0000 && Room(s, count + ExprRegs(e, true), MaxConsts(e))
    ensures AllocReg(s, count).Ok? && ExprCode(c, AllocReg(s, count).value, e, s.regTop, true).Ok?
    ensures
      var s2 := ExprCode(c, AllocReg(s, count).value, e, s.regTop, true).value;
      var t := LoadNils(s2, s.regTop + 1, if count == 0 then 0 else count - 1);
      Takes(s, t, count + ExprRegs(e, true), MaxConsts(e), MaxInsns(e) + count) && t.regTop == s.regTop + count
  {
    var s1 := AllocReg(s, count).value;
    ExprCompiles(c, s1, e, s.regTop, true);
    NilsTake(ExprCode(c, s1, e, s.regTop, true).value, s.regTop + 1, if count == 0 then 0 else count - 1);
  }

  lemma {:induction false} ValuesCompile(c: Context, s: Builder, vars: seq<Expr>, lvs: seq<LValue>, conflict: seq<Option<nat>>,
                                         values: seq<Expr>, i: nat, n: nat)
    requires SameKinds(vars, lvs) && |conflict| == |lvs| && n == Smaller(|vars|, |values|) && i <= n
    requires AllScoped(c, values) && AllSmall(values)
    requires Room(s, ValuesRegs(vars[i..], values[i..]), ListConsts(values[i..n]))
    ensures ValuesCode(c, s, lvs, conflict, values, i).Ok?
    ensures
      var t := ValuesCode(c, s, lvs, conflict, values, i).value.0;
      && Takes(s, t, ValuesRegs(vars[i..], values[i..]), ListConsts(values[i..n]), ListInsns(values[i..n]) + |vars|)
      && t.regTop <= s.regTop + ValuesHeld(vars[i..], values[i..])
    decreases |values| - i
  {
    if i < n {
      assert values[i..n][0] == values[i] && values[i..n][1..] == values[i + 1..n];
      if i + 1 == |values| && |lvs| > |values| {
        assert values[i + 1..n] == [];
        LastCompiles(c, s, vars, lvs, conflict, values, i);
      } else {
        AllAt(c, values, i);
        var reg := TargetReg(lvs, conflict, i);
        assert vars[i..][0] == vars[i] && vars[i..][1..] == vars[i + 1..] && values[i..][1..] == values[i + 1..];
        ValueCompiles(c, s, vars[i], reg, values[i]);
        var (s1, r) := ValueCode(c, s, reg, values[i]).value;
        ValuesCompile(c, s1, vars, lvs, conflict, values, i + 1, n);
        TakesBoth(s, s1, ValuesCode(c, s1, lvs, conflict, values, i + 1).value.0, ValueHeld(vars[i], values[i]),
                  ValueRegs(vars[i], values[i]), MaxConsts(values[i]), MaxInsns(values[i]),
                  ValuesRegs(vars[i + 1..], values[i + 1..]), ListConsts(values[i + 1..n]), ListInsns(values[i + 1..n]) + |vars|);
      }
    }
  }

  // ----- surplus values and stores -----

  lemma {:induction false} SidesCompile(c: Context, s: Builder, es: seq<Expr>)
    requires AllScoped(c, es) && AllSmall(es) && Room(s, SidesRegs(es), ListConsts(es))
    ensures SidesCode(c, s, es).Ok? && Takes(s, SidesCode(c, s, es).value, SidesRegs(es), ListConsts(es), ListInsns(es))
    decreases |es|
  {
    if es != [] {
      if NoEffect(c, es[0]) {
        SidesCompile(c, s, es[1..]);
      } else {
        AutoCompiles(c, s, es[0]);
        SidesCompile(c, AutoCode(c, s, es[0]).value.0.(regTop := s.regTop), es[1..]);
      }
    }
  }

  lemma StoreCompiles(s: Builder, lv: LValue, source: nat)
    requires Room(s, 0, 1)
    ensures StoreCode(s, lv, source).Ok? && Takes(s, StoreCode(s, lv, source).value, 0, 1, 2)
  {
    match lv
    case LvGlobal(n) => ConstantAdded(s, CString(n));
    case LvIndexName(_, n) => ConstantAdded(s, CString(n));
    case _ =>
  }

  lemma {:induction false} StoresCompile(s: Builder, lvs: seq<LValue>, regs: seq<nat>)
    requires |lvs| == |regs| && Room(s, 0, |lvs|)
    ensures StoresCode(s, lvs, regs).Ok? && Takes(s, StoresCode(s, lvs, regs).value, 0, |lvs|, 2 * |lvs|)
    decreases |lvs|
  {
    if lvs != [] {
      if lvs[0].LvLocal? {
        StoresCompile(s, lvs[1..], regs[1..]);
      } else {
        StoreCompiles(s, lvs[0], regs[0]);
        StoresCompile(StoreCode(s, lvs[0], regs[0]).value, lvs[1..], regs[1..]);
      }
    }
  }

  lemma {:induction false} MovesTake(s: Builder, lvs: seq<LValue>, regs: seq<nat>)
    requires |lvs| == |regs|
    ensures Takes(s, MovesCode(s, lvs, regs), 0, 0, |lvs|)
    decreases |lvs|
  {
    if lvs != [] {
      var s1 := if lvs[0].LvLocal? && regs[0] != lvs[0].reg then EmitABC(s, MOVE, lvs[0].reg, regs[0], 0) else s;
      MovesTake(s1, lvs[1..], regs[1..]);
    }
  }

  // ----- the whole assignment -----

  lemma {:induction false} SplitLists(c: Context, es: seq<Expr>, n: nat)
    requires n <= |es|
    ensures ListConsts(es) == ListConsts(es[..n]) + ListConsts(es[n..]) && ListInsns(es) == ListInsns(es[..n]) + ListInsns(es[n..])
    ensures AllScoped(c, es) && AllSmall(es) ==> AllScoped(c, es[n..]) && AllSmall(es[n..])
    decreases n
  {
    if n > 0 {
      SplitLists(c, es[1..], n - 1);
      assert es[..n][1..] == es[1..][..n - 1] && es[n..] == es[1..][n - 1..];
    } else {
      assert es[n..] == es;
    }
  }

  /** Everything that compiling an assignment asks for. */
  predicate EnoughFor(c: Context, s: Builder, vars: seq<Expr>, values: seq<Expr>) {
    && AllTargets(c, vars) && AllScoped(c, values) && AllSmall(values)
    && Room(s, AssignRegs(vars, values), AssignConsts(vars, values))
  }

  lemma SingleCompiles(c: Context, s: Builder, target: Expr, value: Expr)
    requires IsTarget(target) && EnoughFor(c, s, [target], [value])
    ensures SingleAssignCode(c, s, target, value).Ok?
    ensures Takes(s, SingleAssignCode(c, s, target, value).value, AssignRegs([target], [value]), AssignConsts([target], [value]),
                  AssignInsns([target], [value]))
  {
    assert [target][1..] == [] && [value][1..] == [];
    assert TargetsConsts([target]) == TargetConsts(target) + TargetsConsts([]) && ListConsts([value]) == MaxConsts(value) + ListConsts([]);
    assert TargetsInsns([target]) == TargetInsns(target) + TargetsInsns([]) && ListInsns([value]) == MaxInsns(value) + ListInsns([]);
    TargetCompiles(c, s, target);
    var (s1, lv) := LValueCode(c, s, target).value;
    ValueCompiles(c, s1, target, if lv.LvLocal? then Some(lv.reg) else None, value);
    if !lv.LvLocal? {
      var (s2, r) := AutoCode(c, s1, value).value;
      StoreCompiles(s2, lv, r);
    }
  }

  /** Up to the point where every value is computed. */
  lemma ComputesInRoom(c: Context, s: Builder, vars: seq<Expr>, values: seq<Expr>, n: nat) returns (p: Computed)
    requires values != [] && (forall e <- vars :: IsTarget(e)) && n == Smaller(|vars|, |values|)
    requires AllTargets(c, vars) && AllScoped(c, values) && AllSmall(values)
    requires Room(s, Max(TargetsRegs(vars), TargetsHeld(vars) + (LocalTargets(vars) + ValuesRegs(vars, values))),
                  TargetsConsts(vars) + ListConsts(values[..n]))
    ensures LValuesCode(c, s, vars) == Ok((p.s1, p.lvs)) && ConflictRegs(c, p.s1, p.lvs, values, 0) == Ok((p.s2, p.conflict))
    ensures ValuesCode(c, p.s2, p.lvs, p.conflict, values, 0) == Ok((p.s3, p.regs)) && |p.regs| == |p.lvs| == |vars|
    ensures Takes(s, p.s3, Max(TargetsRegs(vars), TargetsHeld(vars) + (LocalTargets(vars) + ValuesRegs(vars, values))),
                  TargetsConsts(vars) + ListConsts(values[..n]), TargetsInsns(vars) + ListInsns(values[..n]) + |vars|)
    ensures p.s3.regTop <= s.regTop + TargetsHeld(vars) + LocalTargets(vars) + ValuesHeld(vars, values)
  {
    assert vars[0..] == vars && values[0..] == values && values[0..n] == values[..n];
    var places, moved := PlacesInRoom(c, s, vars, values);
    ValuesCompile(c, moved.0, vars, places.1, moved.1, values, 0, n);
    var computed := ValuesCode(c, moved.0, places.1, moved.1, values, 0).value;
    TakesBoth(s, moved.0, computed.0, TargetsHeld(vars) + LocalTargets(vars),
              Max(TargetsRegs(vars), TargetsHeld(vars) + LocalTargets(vars)), TargetsConsts(vars), TargetsInsns(vars),
              ValuesRegs(vars, values), ListConsts(values[..n]), ListInsns(values[..n]) + |vars|);
    p := Computed(places.0, places.1, moved.0, moved.1, computed.0, computed.1);
  }

  lemma PlacesInRoom(c: Context, s: Builder, vars: seq<Expr>, values: seq<Expr>)
    returns (places: (Builder, seq<LValue>), moved: (Builder, seq<Option<nat>>))
    requires (forall e <- vars :: IsTarget(e)) && AllTargets(c, vars)
    requires Room(s, Max(TargetsRegs(vars), TargetsHeld(vars) + LocalTargets(vars)), TargetsConsts(vars))
    ensures LValuesCode(c, s, vars) == Ok(places) && ConflictRegs(c, places.0, places.1, values, 0) == Ok(moved)
    ensures SameKinds(vars, places.1) && |moved.1| == |places.1|
    ensures Takes(s, moved.0, Max(TargetsRegs(vars), TargetsHeld(vars) + LocalTargets(vars)), TargetsConsts(vars), TargetsInsns(vars))
    ensures moved.0.regTop <= s.regTop + TargetsHeld(vars) + LocalTargets(vars)
  {
    assert vars[0..] == vars;
    TargetsCompile(c, s, vars);
    places := LValuesCode(c, s, vars).value;
    SameCount(vars, places.1, 0);
    ConflictsCompile(c, places.0, places.1, values, 0);
    moved := ConflictRegs(c, places.0, places.1, values, 0).value;
    TakesBoth(s, places.0, moved.0, TargetsHeld(vars), TargetsRegs(vars), TargetsConsts(vars), TargetsInsns(vars),
              LocalTargets(vars), 0, 0);
  }

  datatype Computed = Computed(s1: Builder, lvs: seq<LValue>, s2: Builder, conflict: seq<Option<nat>>, s3: Builder, regs: seq<nat>)

  lemma MultiCompiles(c: Context, s: Builder, vars: seq<Expr>, values: seq<Expr>)
    requires values != [] && (forall e <- vars :: IsTarget(e)) && EnoughFor(c, s, vars, values) && !(|vars| == 1 && |values| == 1)
    ensures MultiAssignCode(c, s, vars, values).Ok?
    ensures Takes(s, MultiAssignCode(c, s, vars, values).value, AssignRegs(vars, values), AssignConsts(vars, values), AssignInsns(vars, values))
  {
    var n := Smaller(|vars|, |values|);
    SplitLists(c, values, n);
    var p := ComputesInRoom(c, s, vars, values, n);
    SidesCompile(c, p.s3, values[n..]);
    var s4 := SidesCode(c, p.s3, values[n..]).value;
    StoresCompile(s4, p.lvs, p.regs);
    MovesTake(StoresCode(s4, p.lvs, p.regs).value, p.lvs, p.regs);
  }

  /** An assignment whose locals all have registers compiles if its registers and constants fit, and takes no more than that. */
  lemma AssignCompiles(c: Context, s: Builder, vars: seq<Expr>, values: seq<Expr>)
    requires vars != [] && values != [] && (forall e <- vars :: IsTarget(e)) && EnoughFor(c, s, vars, values)
    ensures AssignCode(c, s, vars, values).Ok?
    ensures Takes(s, AssignCode(c, s, vars, values).value, AssignRegs(vars, values), AssignConsts(vars, values), AssignInsns(vars, values))
  {
    if |vars| == 1 && |values| == 1 {
      assert vars == [vars[0]] && values == [values[0]];
      SingleCompiles(c, s, vars[0], values[0]);
    } else {
      MultiCompiles(c, s, vars, values);
    }
  }
}
