/**
 What the code generator emits for an assignment, and what the assignment means.

 Targets are resolved first, then values are computed, then everything is stored. A local whose
 old value is still needed when it is assigned gets its new value in a temporary register first;
 the conflict analysis decides which locals those are.
 */
module AssignSpec {
  import opened Results
  import opened LuaSource
  import opened RegisterVm
  import opened EmitSpec

  // ----- meaning -----

  datatype Place =
    | ToLocal(local: LocalId)
    | ToUpvalue(slot: nat)
    | ToGlobal(name: string)
    | ToTable(t: Value, k: Value)

  /** The forms of expression that can be assigned to. */
  predicate IsTarget(e: Expr) {
    e.Local? || e.Upvalue? || e.Global? || e.IndexName? || e.IndexExpr?
  }

  function EvalPlace(h: Host, env: Env, e: Expr, w: World): (World, Place)
    requires IsTarget(e)
  {
    match e
    case Local(l) => (w, ToLocal(l))
    case Upvalue(u) => (w, ToUpvalue(u))
    case Global(n) => (w, ToGlobal(n))
    case IndexName(x, k) =>
      var (w1, t) := Eval(h, env, x, w);
      (w1, ToTable(t, Prim(CString(k))))
    case IndexExpr(x, i) =>
      var (w1, t) := Eval(h, env, x, w);
      var (w2, k) := Eval(h, env, i, w1);
      (w2, ToTable(t, k))
  }

  function EvalPlaces(h: Host, env: Env, es: seq<Expr>, w: World): (r: (World, seq<Place>))
    requires forall e <- es :: IsTarget(e)
    ensures |r.1| == |es|
  {
    if es == [] then (w, [])
    else
      var (w1, p) := EvalPlace(h, env, es[0], w);
      var (w2, ps) := EvalPlaces(h, env, es[1..], w1);
      (w2, [p] + ps)
  }

  /** One value for each of `n` targets; missing ones are nil. */
  function Padded(vs: seq<Value>, n: nat): (r: seq<Value>)
    requires |vs| <= n
    ensures |r| == n
  {
    vs + seq(n - |vs|, _ => NIL)
  }

  function StorePlaces(h: Host, ps: seq<Place>, vs: seq<Value>, w: World): World
    requires |ps| == |vs|
  {
    if ps == [] then w
    else
      var w1 := match ps[0]
        case ToLocal(_) => w
        case ToUpvalue(u) => Ask(h, w, EvSetUpvalue(u, vs[0])).0
        case ToGlobal(n) => Ask(h, w, EvSetGlobal(n, vs[0])).0
        case ToTable(t, k) => Ask(h, w, EvSetTable(t, k, vs[0])).0;
      StorePlaces(h, ps[1..], vs[1..], w1)
  }

  /** The last value assigned to a local, if there is one. */
  function LastStore(ps: seq<Place>, vs: seq<Value>, l: LocalId): (r: Option<Value>)
    requires |ps| == |vs|
  {
    if ps == [] then None
    else if ps[|ps| - 1] == ToLocal(l) then Some(vs[|vs| - 1])
    else LastStore(ps[..|ps| - 1], vs[..|vs| - 1], l)
  }

  function Smaller(a: nat, b: nat): nat {
    if a < b then a else b
  }

  /** Simultaneous assignment: targets and values are all evaluated in the state before, then
      every target receives its value, the last one if it occurs more than once. */
  function AssignMeaning(h: Host, env: Env, vars: seq<Expr>, values: seq<Expr>, w: World): (r: (World, seq<Place>, seq<Value>))
    requires forall e <- vars :: IsTarget(e)
    ensures |r.1| == |r.2| == |vars|
  {
    var n := Smaller(|vars|, |values|);
    var (w1, ps) := EvalPlaces(h, env, vars, w);
    var (w2, vs) := EvalList(h, env, values[..n], w1);
    var w3 := EvalList(h, env, values[n..], w2).0;
    var all := Padded(vs, |vars|);
    (StorePlaces(h, ps, all, w3), ps, all)
  }

  // ----- surplus values -----

  /** The compiler emits nothing for a value beyond the last target that it takes to have no effect. */
  predicate NoEffect(c: Context, e: Expr) {
    e.Local? || e.Upvalue? || e.Global? || e in c.known
  }

  function EvalSides(c: Context, h: Host, env: Env, es: seq<Expr>, w: World): World {
    if es == [] then w
    else EvalSides(c, h, env, es[1..], if NoEffect(c, es[0]) then w else Eval(h, env, es[0], w).0)
  }

  /** Reading a global is an event, and it is left out. */
  predicate Dropped(c: Context, e: Expr) {
    e.Global? && e !in c.known
  }

  predicate AnyDropped(c: Context, es: seq<Expr>) {
    es != [] && (Dropped(c, es[0]) || AnyDropped(c, es[1..]))
  }

  predicate NothingDropped(c: Context, vars: seq<Expr>, values: seq<Expr>) {
    !AnyDropped(c, values[Smaller(|vars|, |values|)..])
  }

  /** The assignment without the surplus values for which nothing is emitted. */
  function EmittedMeaning(c: Context, h: Host, env: Env, vars: seq<Expr>, values: seq<Expr>, w: World)
    : (r: (World, seq<Place>, seq<Value>))
    requires forall e <- vars :: IsTarget(e)
    ensures |r.1| == |r.2| == |vars|
  {
    var n := Smaller(|vars|, |values|);
    var (w1, ps) := EvalPlaces(h, env, vars, w);
    var (w2, vs) := EvalList(h, env, values[..n], w1);
    var w3 := EvalSides(c, h, env, values[n..], w2);
    var all := Padded(vs, |vars|);
    (StorePlaces(h, ps, all, w3), ps, all)
  }

  // ----- code -----

  datatype LValue =
    | LvLocal(reg: nat)
    | LvUpvalue(slot: nat)
    | LvGlobal(name: string)
    | LvIndexName(reg: nat, name: string)
    | LvIndexNumber(reg: nat, number: nat)
    | LvIndexExpr(reg: nat, index: nat)

  function LValueIndex(c: Context, s: Builder, reg: nat, index: Expr): (r: Outcome<(Builder, LValue)>)
    ensures r.Ok? ==> Grows(s, r.value.0) && s.regTop <= r.value.0.regTop
  {
    if SmallIndex(c, index).Some? then Ok((s, LvIndexNumber(reg, SmallIndex(c, index).value)))
    else if index in c.known && c.known[index].CString? then Ok((s, LvIndexName(reg, c.known[index].s)))
    else
      var (s1, ri) :- AutoCode(c, s, index);
      Ok((s1, LvIndexExpr(reg, ri)))
  }

  function LValueCode(c: Context, s: Builder, e: Expr): (r: Outcome<(Builder, LValue)>)
    requires IsTarget(e)
    ensures r.Ok? ==> Grows(s, r.value.0) && s.regTop <= r.value.0.regTop
  {
    match e
    case Local(l) => if l in c.locals then Ok((s, LvLocal(c.locals[l]))) else Err(UnresolvedLocal)
    case Upvalue(u) => Ok((s, LvUpvalue(u)))
    case Global(n) => Ok((s, LvGlobal(n)))
    case IndexName(x, k) =>
      var (s1, r) :- AutoCode(c, s, x);
      Ok((s1, LvIndexName(r, k)))
    case IndexExpr(x, i) =>
      var (s1, r) :- AutoCode(c, s, x);
      LValueIndex(c, s1, r, i)
  }

  function LValuesCode(c: Context, s: Builder, es: seq<Expr>): (r: Outcome<(Builder, seq<LValue>)>)
    requires forall e <- es :: IsTarget(e)
    ensures r.Ok? ==> Grows(s, r.value.0) && s.regTop <= r.value.0.regTop && |r.value.1| == |es|
    decreases |es|
  {
    if es == [] then Ok((s, []))
    else
      var (s1, lv) :- LValueCode(c, s, es[0]);
      var (s2, lvs) :- LValuesCode(c, s1, es[1..]);
      Ok((s2, [lv] + lvs))
  }

  function StoreCode(s: Builder, lv: LValue, source: nat): (r: Outcome<Builder>)
    ensures r.Ok? ==> Grows(s, r.value) && r.value.regTop == s.regTop
  {
    match lv
    case LvLocal(reg) => Ok(EmitABC(s, MOVE, reg, source, 0))
    case LvUpvalue(u) => Ok(EmitABC(s, SETUPVAL, source, u, 0))
    case LvGlobal(n) =>
      var (s1, id) :- AddConstant(s, CString(n));
      Ok(EmitAux(EmitABC(s1, SETGLOBAL, source, 0, 0), id, false))
    case LvIndexName(reg, n) =>
      var (s1, id) :- AddConstant(s, CString(n));
      Ok(EmitAux(EmitABC(s1, SETTABLEKS, source, reg, 0), id, false))
    case LvIndexNumber(reg, k) => Ok(EmitABC(s, SETTABLEN, source, reg, k))
    case LvIndexExpr(reg, index) => Ok(EmitABC(s, SETTABLE, source, reg, index))
  }

  // ----- conflicts -----

  /** Some local that `e` reads lives in the register. */
  predicate Reads(c: Context, e: Expr, reg: nat) {
    exists l <- c.locals :: c.locals[l] == reg && Mentions(e, l)
  }

  /** The register is assigned by one of the first `n` targets. */
  predicate AssignedBefore(lvs: seq<LValue>, n: nat, reg: nat) {
    exists i :: 0 <= i < n && i < |lvs| && lvs[i] == LvLocal(reg)
  }

  predicate LValueReads(lv: LValue, reg: nat) {
    ((lv.LvIndexName? || lv.LvIndexNumber? || lv.LvIndexExpr?) && lv.reg == reg) || (lv.LvIndexExpr? && lv.index == reg)
  }

  /** The value of one of the first `n` targets that is a local reads a register that was assigned
      before it. */
  predicate LocalConflict(c: Context, lvs: seq<LValue>, values: seq<Expr>, n: nat, reg: nat) {
    exists i :: 0 <= i < n && i < |lvs| && i < |values| && lvs[i].LvLocal? && Reads(c, values[i], reg) && AssignedBefore(lvs, i, reg)
  }

  /** One of the first `n` values that is not for a local reads the register. */
  predicate OtherReads(c: Context, lvs: seq<LValue>, values: seq<Expr>, n: nat, reg: nat) {
    exists i :: 0 <= i < n && i < |values| && (i >= |lvs| || !lvs[i].LvLocal?) && Reads(c, values[i], reg)
  }

  /** One of the first `n` targets reads the register. */
  predicate TargetReads(lvs: seq<LValue>, n: nat, reg: nat) {
    exists i :: 0 <= i < n && i < |lvs| && LValueReads(lvs[i], reg)
  }

  /** An assigned register whose old value is needed after the assignment: by the value of a later
      local, by any value of another target or beyond the targets, or by a target. */
  predicate InConflict(c: Context, lvs: seq<LValue>, values: seq<Expr>, reg: nat) {
    || LocalConflict(c, lvs, values, |lvs|, reg)
    || (AssignedBefore(lvs, |lvs|, reg) && (OtherReads(c, lvs, values, |values|, reg) || TargetReads(lvs, |lvs|, reg)))
  }

  ghost predicate DistinctLocals(lvs: seq<LValue>) {
    && (forall i :: 0 <= i < |lvs| ==> lvs[i].LvLocal?)
    && (forall i, j :: 0 <= i < j < |lvs| ==> lvs[i] != lvs[j])
  }

  /** Among locals only, one is in conflict exactly when the value of a later one, or one beyond the last, reads it. */
  lemma ConflictIsLaterRead(c: Context, lvs: seq<LValue>, values: seq<Expr>, i: nat)
    requires DistinctLocals(lvs) && i < |lvs|
    ensures InConflict(c, lvs, values, lvs[i].reg) <==> exists j :: i < j < |values| && Reads(c, values[j], lvs[i].reg)
  {
    var reg := lvs[i].reg;
    assert lvs[i] == LvLocal(reg);
    forall j | i < j < |values| && Reads(c, values[j], reg)
      ensures InConflict(c, lvs, values, reg)
    {
      assert AssignedBefore(lvs, |lvs|, reg) && AssignedBefore(lvs, j, reg);
    }
  }

  /** Temporary registers for the locals in conflict. */
  function ConflictRegs(c: Context, s: Builder, lvs: seq<LValue>, values: seq<Expr>, i: nat)
    : (r: Outcome<(Builder, seq<Option<nat>>)>)
    requires i <= |lvs|
    ensures r.Ok? ==> Grows(s, r.value.0) && r.value.0.insns == s.insns && s.regTop <= r.value.0.regTop && |r.value.1| == |lvs| - i
    decreases |lvs| - i
  {
    if i == |lvs| then Ok((s, []))
    else if lvs[i].LvLocal? && InConflict(c, lvs, values, lvs[i].reg) then
      var s1 :- AllocReg(s, 1);
      var (s2, rest) :- ConflictRegs(c, s1, lvs, values, i + 1);
      Ok((s2, [Some(s.regTop)] + rest))
    else
      var (s2, rest) :- ConflictRegs(c, s, lvs, values, i + 1);
      Ok((s2, [None] + rest))
  }

  // ----- values -----

  function LoadNils(s: Builder, target: nat, count: nat): (r: Builder)
    ensures Grows(s, r) && r.regTop == s.regTop && |r.insns| == |s.insns| + count
    decreases count
  {
    if count == 0 then s else LoadNils(EmitABC(s, LOADNIL, target, 0, 0), target + 1, count - 1)
  }

  /** The register that holds the value of target `i` when it is not the last value of a shorter list. */
  function TargetReg(lvs: seq<LValue>, conflict: seq<Option<nat>>, i: nat): Option<nat>
    requires i < |lvs| == |conflict|
  {
    if !lvs[i].LvLocal? then None
    else if conflict[i].Some? then conflict[i]
    else Some(lvs[i].reg)
  }

  /** Registers are numbered by bytes; a count or a number that does not fit is cut off. */
  const BYTE: nat := 256

  function ValuesCode(c: Context, s: Builder, lvs: seq<LValue>, conflict: seq<Option<nat>>, values: seq<Expr>, i: nat)
    : (r: Outcome<(Builder, seq<nat>)>)
    requires |lvs| == |conflict| && i <= |lvs| && i <= |values|
    ensures r.Ok? ==> Grows(s, r.value.0) && s.regTop <= r.value.0.regTop
    ensures r.Ok? && (|lvs| <= |values| || i < |values|) ==> |r.value.1| == |lvs| - i
    decreases |values| - i
  {
    if i == |lvs| || i == |values| then Ok((s, []))
    else if i + 1 == |values| && |lvs| > |values| then
      var count := (|lvs| - |values| + 1) % BYTE;
      var s1 :- AllocReg(s, count);
      var s2 :- ExprCode(c, s1, values[i], s.regTop, true);
      Ok((LoadNils(s2, s.regTop + 1, if count == 0 then 0 else count - 1),
          seq(|lvs| - i, (k: nat) => (s.regTop + k) % BYTE)))
    else
      var (s1, r) :- ValueCode(c, s, TargetReg(lvs, conflict, i), values[i]);
      var (s2, rest) :- ValuesCode(c, s1, lvs, conflict, values, i + 1);
      Ok((s2, [r] + rest))
  }

  function ValueCode(c: Context, s: Builder, target: Option<nat>, e: Expr): (r: Outcome<(Builder, nat)>)
    ensures r.Ok? ==> Grows(s, r.value.0) && s.regTop <= r.value.0.regTop
  {
    match target
    case Some(reg) =>
      var s1 :- ExprCode(c, s, e, reg, false);
      Ok((s1, reg))
    case None => AutoCode(c, s, e)
  }

  function SidesCode(c: Context, s: Builder, es: seq<Expr>): (r: Outcome<Builder>)
    ensures r.Ok? ==> Grows(s, r.value) && r.value.regTop == s.regTop
    decreases |es|
  {
    if es == [] then Ok(s)
    else if NoEffect(c, es[0]) then SidesCode(c, s, es[1..])
    else
      var (s1, _) :- AutoCode(c, s, es[0]);
      SidesCode(c, s1.(regTop := s.regTop), es[1..])
  }

  // ----- stores -----

  function StoresCode(s: Builder, lvs: seq<LValue>, regs: seq<nat>): (r: Outcome<Builder>)
    requires |lvs| == |regs|
    ensures r.Ok? ==> Grows(s, r.value) && r.value.regTop == s.regTop
    decreases |lvs|
  {
    if lvs == [] then Ok(s)
    else
      var s1 :- if lvs[0].LvLocal? then Ok(s) else StoreCode(s, lvs[0], regs[0]);
      StoresCode(s1, lvs[1..], regs[1..])
  }

  function MovesCode(s: Builder, lvs: seq<LValue>, regs: seq<nat>): (r: Builder)
    requires |lvs| == |regs|
    ensures Grows(s, r) && r.regTop == s.regTop
    decreases |lvs|
  {
    if lvs == [] then s
    else
      var s1 := if lvs[0].LvLocal? && regs[0] != lvs[0].reg then EmitABC(s, MOVE, lvs[0].reg, regs[0], 0) else s;
      MovesCode(s1, lvs[1..], regs[1..])
  }

  /** One target and one value need no analysis. */
  function SingleAssignCode(c: Context, s: Builder, target: Expr, value: Expr): (r: Outcome<Builder>)
    requires IsTarget(target)
    ensures r.Ok? ==> Grows(s, r.value) && r.value.regTop == s.regTop
  {
    var (s1, lv) :- LValueCode(c, s, target);
    if lv.LvLocal? then
      var s2 :- ExprCode(c, s1, value, lv.reg, false);
      Ok(s2.(regTop := s.regTop))
    else
      var (s2, r) :- AutoCode(c, s1, value);
      var s3 :- StoreCode(s2, lv, r);
      Ok(s3.(regTop := s.regTop))
  }

  function MultiAssignCode(c: Context, s: Builder, vars: seq<Expr>, values: seq<Expr>): (r: Outcome<Builder>)
    requires values != [] && forall e <- vars :: IsTarget(e)
    ensures r.Ok? ==> Grows(s, r.value) && r.value.regTop == s.regTop
  {
    var (s1, lvs) :- LValuesCode(c, s, vars);
    var (s2, conflict) :- ConflictRegs(c, s1, lvs, values, 0);
    var (s3, regs) :- ValuesCode(c, s2, lvs, conflict, values, 0);
    var s4 :- SidesCode(c, s3, values[Smaller(|vars|, |values|)..]);
    var s5 :- StoresCode(s4, lvs, regs);
    Ok(MovesCode(s5, lvs, regs).(regTop := s.regTop))
  }

  function AssignCode(c: Context, s: Builder, vars: seq<Expr>, values: seq<Expr>): (r: Outcome<Builder>)
    requires vars != [] && values != [] && forall e <- vars :: IsTarget(e)
    ensures r.Ok? ==> Grows(s, r.value) && r.value.regTop == s.regTop
  {
    if |vars| == 1 && |values| == 1 then SingleAssignCode(c, s, vars[0], values[0])
    else MultiAssignCode(c, s, vars, values)
  }
}
