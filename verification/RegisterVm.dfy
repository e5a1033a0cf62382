/**
 The part of the register machine that compiled expressions and assignments use. An instruction
 is one word; comparisons and accesses that need a second operand carry it in the following Aux
 word. Offsets of jumps are relative to the word after the instruction.
 */
module RegisterVm {
  import opened Results
  import opened LuaSource

  datatype VmCompare = VmEq | VmLt | VmLe

  datatype Opcode =
    | LOADNIL | LOADB | LOADN | LOADK | LOADKX | MOVE
    | GETGLOBAL | SETGLOBAL | GETUPVAL | SETUPVAL
    | GETTABLE | SETTABLE | GETTABLEKS | SETTABLEKS | GETTABLEN | SETTABLEN
    | JUMP | JUMPIF | JUMPIFNOT
    | JUMPCMP(cmp: VmCompare, negated: bool)
    | JUMPXEQKNIL | JUMPXEQKB | JUMPXEQKN | JUMPXEQKS
    | ARITH(op: ArithOp) | ARITHK(op: ArithOp) | ARITHRK(op: ArithOp)
    | ANDR | ORR | ANDK | ORK | CONCAT
    | NOT | MINUS | LENGTH

  datatype Insn =
    | ABC(op: Opcode, a: nat, b: nat, c: nat)
    | AD(op: Opcode, a: nat, d: int)
    | Aux(word: nat, flip: bool)

  datatype Config = Config(pc: nat, regs: seq<Value>, world: World)

  /** The word of an instruction's second operand, if there is one. */
  function AuxAt(code: seq<Insn>, pc: nat): Option<Insn> {
    if pc < |code| && code[pc].Aux? then Some(code[pc]) else None
  }

  function JumpTo(pc: int, regs: seq<Value>, w: World): Option<Config> {
    if 0 <= pc then Some(Config(pc, regs, w)) else None
  }

  /** A write that only exists when the register does. */
  function Put(pc: nat, regs: seq<Value>, a: nat, r: (World, Value)): Option<Config> {
    if a < |regs| then Some(Config(pc, regs[a := r.1], r.0)) else None
  }

  function StepABC(h: Host, k: seq<Const>, aux: Option<Insn>, op: Opcode, a: nat, b: nat, c: nat,
                   pc: nat, regs: seq<Value>, w: World): Option<Config>
  {
    var n := |regs|;
    match op
    case LOADNIL => Put(pc + 1, regs, a, (w, NIL))
    case LOADB => Put(pc + 1 + c, regs, a, (w, Prim(CBool(b != 0))))
    case MOVE => if b < n then Put(pc + 1, regs, a, (w, regs[b])) else None
    case LOADKX => None
    case GETGLOBAL =>
      if aux.Some? && aux.value.Aux? && aux.value.word < |k| && k[aux.value.word].CString? then
        Put(pc + 2, regs, a, Ask(h, w, EvGetGlobal(k[aux.value.word].s)))
      else None
    case SETGLOBAL =>
      if aux.Some? && aux.value.Aux? && aux.value.word < |k| && k[aux.value.word].CString? && a < n then
        Some(Config(pc + 2, regs, Ask(h, w, EvSetGlobal(k[aux.value.word].s, regs[a])).0))
      else None
    case GETUPVAL => Put(pc + 1, regs, a, (w, h.upvalue(w, b)))
    case SETUPVAL =>
      if a < n then Some(Config(pc + 1, regs, Ask(h, w, EvSetUpvalue(b, regs[a])).0)) else None
    case GETTABLE =>
      if b < n && c < n then Put(pc + 1, regs, a, Ask(h, w, EvGetTable(regs[b], regs[c]))) else None
    case SETTABLE =>
      if a < n && b < n && c < n then
        Some(Config(pc + 1, regs, Ask(h, w, EvSetTable(regs[b], regs[c], regs[a])).0))
      else None
    case GETTABLEKS =>
      if aux.Some? && aux.value.Aux? && aux.value.word < |k| && b < n then
        Put(pc + 2, regs, a, Ask(h, w, EvGetTable(regs[b], Prim(k[aux.value.word]))))
      else None
    case SETTABLEKS =>
      if aux.Some? && aux.value.Aux? && aux.value.word < |k| && a < n && b < n then
        Some(Config(pc + 2, regs, Ask(h, w, EvSetTable(regs[b], Prim(k[aux.value.word]), regs[a])).0))
      else None
    case GETTABLEN =>
      if b < n then Put(pc + 1, regs, a, Ask(h, w, EvGetTable(regs[b], Prim(CNumber(Integral(c + 1)))))) else None
    case SETTABLEN =>
      if a < n && b < n then
        Some(Config(pc + 1, regs, Ask(h, w, EvSetTable(regs[b], Prim(CNumber(Integral(c + 1))), regs[a])).0))
      else None
    case ARITH(o) =>
      if b < n && c < n then Put(pc + 1, regs, a, ArithValue(h, w, o, regs[b], regs[c])) else None
    case ARITHK(o) =>
      if b < n && c < |k| then Put(pc + 1, regs, a, ArithValue(h, w, o, regs[b], Prim(k[c]))) else None
    case ARITHRK(o) =>
      if b < |k| && c < n then Put(pc + 1, regs, a, ArithValue(h, w, o, Prim(k[b]), regs[c])) else None
    case ANDR =>
      if b < n && c < n then Put(pc + 1, regs, a, (w, if Truthy(regs[b]) then regs[c] else regs[b])) else None
    case ORR =>
      if b < n && c < n then Put(pc + 1, regs, a, (w, if Truthy(regs[b]) then regs[b] else regs[c])) else None
    case ANDK =>
      if b < n && c < |k| then Put(pc + 1, regs, a, (w, if Truthy(regs[b]) then Prim(k[c]) else regs[b])) else None
    case ORK =>
      if b < n && c < |k| then Put(pc + 1, regs, a, (w, if Truthy(regs[b]) then regs[b] else Prim(k[c]))) else None
    case CONCAT =>
      if b <= c < n then Put(pc + 1, regs, a, ConcatFold(h, regs[b..c + 1], w)) else None
    case NOT => if b < n then Put(pc + 1, regs, a, UnaryValue(h, w, Not, regs[b])) else None
    case MINUS => if b < n then Put(pc + 1, regs, a, UnaryValue(h, w, Minus, regs[b])) else None
    case LENGTH => if b < n then Put(pc + 1, regs, a, UnaryValue(h, w, Len, regs[b])) else None
    case _ => None
  }

  /** The outcome of the machine's three comparisons. */
  function VmCompareValue(h: Host, w: World, cmp: VmCompare, a: Value, b: Value): (World, bool) {
    match cmp
    case VmEq => EqValue(h, w, a, b)
    case VmLt => LessValue(h, w, a, b)
    case VmLe => LessEqValue(h, w, a, b)
  }

  function StepAD(h: Host, k: seq<Const>, aux: Option<Insn>, op: Opcode, a: nat, d: int,
                  pc: nat, regs: seq<Value>, w: World): Option<Config>
  {
    var n := |regs|;
    match op
    case LOADN => Put(pc + 1, regs, a, (w, Prim(CNumber(Integral(d)))))
    case LOADK => if 0 <= d < |k| then Put(pc + 1, regs, a, (w, Prim(k[d]))) else None
    case LOADKX =>
      if aux.Some? && aux.value.Aux? && aux.value.word < |k| then
        Put(pc + 2, regs, a, (w, Prim(k[aux.value.word])))
      else None
    case JUMP => JumpTo(pc + 1 + d, regs, w)
    case JUMPIF => if a < n then JumpTo(if Truthy(regs[a]) then pc + 1 + d else pc + 1, regs, w) else None
    case JUMPIFNOT => if a < n then JumpTo(if Truthy(regs[a]) then pc + 1 else pc + 1 + d, regs, w) else None
    case JUMPCMP(cmp, negated) =>
      if aux.Some? && aux.value.Aux? && a < n && aux.value.word < n then
        var (w', t) := VmCompareValue(h, w, cmp, regs[a], regs[aux.value.word]);
        JumpTo(if t != negated then pc + 1 + d else pc + 2, regs, w')
      else None
    case JUMPXEQKNIL =>
      if aux.Some? && aux.value.Aux? && a < n then
        JumpTo(if (regs[a] == NIL) != aux.value.flip then pc + 1 + d else pc + 2, regs, w)
      else None
    case JUMPXEQKB =>
      if aux.Some? && aux.value.Aux? && a < n then
        JumpTo(if (regs[a] == Prim(CBool(aux.value.word != 0))) != aux.value.flip then pc + 1 + d else pc + 2, regs, w)
      else None
    case JUMPXEQKN =>
      if aux.Some? && aux.value.Aux? && a < n && aux.value.word < |k| && k[aux.value.word].CNumber? then
        var t := IsNumber(regs[a]) && NumberEq(regs[a].c.n, k[aux.value.word].n);
        JumpTo(if t != aux.value.flip then pc + 1 + d else pc + 2, regs, w)
      else None
    case JUMPXEQKS =>
      if aux.Some? && aux.value.Aux? && a < n && aux.value.word < |k| && k[aux.value.word].CString? then
        JumpTo(if (regs[a] == Prim(k[aux.value.word])) != aux.value.flip then pc + 1 + d else pc + 2, regs, w)
      else None
    case _ => None
  }

  /** One instruction; a register or constant that does not exist, or an Aux word met as an
      instruction, stops the machine. */
  function Step(h: Host, code: seq<Insn>, k: seq<Const>, cfg: Config): Option<Config> {
    if cfg.pc >= |code| then None
    else
      match code[cfg.pc]
      case ABC(op, a, b, c) => StepABC(h, k, AuxAt(code, cfg.pc + 1), op, a, b, c, cfg.pc, cfg.regs, cfg.world)
      case AD(op, a, d) => StepAD(h, k, AuxAt(code, cfg.pc + 1), op, a, d, cfg.pc, cfg.regs, cfg.world)
      case Aux(_, _) => None
  }

  /** Runs until the program counter reaches `stop` or passes it. Only forward progress counts,
      so a run that jumps backwards is no run. */
  function Exec(h: Host, code: seq<Insn>, k: seq<Const>, cfg: Config, stop: nat): Option<Config>
    decreases stop - cfg.pc
  {
    if cfg.pc >= stop then Some(cfg)
    else
      match Step(h, code, k, cfg)
      case None => None
      case Some(next) => if next.pc > cfg.pc then Exec(h, code, k, next, stop) else None
  }

  /** A run to `stop` can be cut at any earlier point. */
  lemma {:induction false} ExecSplit(h: Host, code: seq<Insn>, k: seq<Const>, cfg: Config, mid: nat, stop: nat)
    requires mid <= stop
    requires Exec(h, code, k, cfg, mid).Some?
    ensures Exec(h, code, k, cfg, stop) == Exec(h, code, k, Exec(h, code, k, cfg, mid).value, stop)
    decreases mid - cfg.pc
  {
    if cfg.pc < mid {
      ExecSplit(h, code, k, Step(h, code, k, cfg).value, mid, stop);
    }
  }
}
