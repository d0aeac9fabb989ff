/**
 * The execution engine of the sakuya16c: one handler per opcode, a handler
 * table indexed by opcode ordinal, and `execute`, which dispatches through
 * that table.
 *
 * `Semantics` is the reference meaning of one instruction on a register
 * file; the handler methods, which update the CPU's register array in place,
 * are proved to agree with it, and the lemmas below state what it promises.
 */
module Engine {
  import opened Vm

  /** What an instruction reports to its caller. `Error` is never produced. */
  datatype ControlFlow = Ok | Halt | Error

  /** The four handlers of the table. */
  datatype Handler = NopHandler | HltHandler | MovLitRegHandler | AddRegRegHandler

  /** `opcode_table`, indexed by opcode ordinal. */
  const OPCODE_TABLE: seq<Handler> := [NopHandler, HltHandler, MovLitRegHandler, AddRegRegHandler]

  /** The handler each opcode is meant to run. */
  function HandlerFor(op: Opcode): Handler {
    match op
    case Nop => NopHandler
    case Hlt => HltHandler
    case MovLitReg => MovLitRegHandler
    case AddRegReg => AddRegRegHandler
  }

  /**
   * The table has one entry per opcode and entry i is the handler of the
   * opcode whose ordinal is i: table and enumeration are in step.
   */
  lemma OpcodeTableMatchesEnum()
    ensures |OPCODE_TABLE| == OPCODE_COUNT
    ensures forall op: Opcode :: OPCODE_TABLE[op.Ordinal()] == HandlerFor(op)
  {
    forall op: Opcode ensures OPCODE_TABLE[op.Ordinal()] == HandlerFor(op) {
      match op
      case Nop =>
      case Hlt =>
      case MovLitReg =>
      case AddRegReg =>
    }
  }

  /**
   * Whether running `i` stays inside the behaviour the source defines: the
   * opcode byte indexes the table, and every register argument the handler
   * uses names one of the sixteen registers.
   */
  predicate Executable(i: Instr) {
    && i.op < |OPCODE_TABLE|
    && match OPCODE_TABLE[i.op]
       case MovLitRegHandler => i.args[2] < 16
       case AddRegRegHandler => i.args[0] < 16 && i.args[1] < 16
       case _ => true
  }

  /** The 16-bit literal of `mov_lit_reg`: argument bytes 0 and 1, low byte first. */
  function Literal(i: Instr): u16 {
    WordFromBytes(i.args[0], i.args[1]).val
  }

  /** Reference meaning of one instruction: the new register file and the reported flow. */
  function Semantics(regs: RegFile, i: Instr): (RegFile, ControlFlow)
    requires Executable(i)
  {
    match OPCODE_TABLE[i.op]
    case NopHandler => (regs, Ok)
    case HltHandler => (regs, Halt)
    case MovLitRegHandler => (regs[i.args[2] := Literal(i)], Ok)
    case AddRegRegHandler =>
      (regs[Ac.Index() := (regs[i.args[0]] as int + regs[i.args[1]]) % 0x1_0000], Ok)
  }

  /** No instruction reports `Error`, and exactly the `hlt` opcode reports `Halt`. */
  lemma HaltExactlyOnHlt(regs: RegFile, i: Instr)
    requires Executable(i)
    ensures Semantics(regs, i).1 != Error
    ensures Semantics(regs, i).1 == Halt <==> i.op == Hlt.Ordinal()
  {
  }

  /** `nop` and `hlt` leave every register as it was. */
  lemma NopHltPreserveRegisters(regs: RegFile, i: Instr)
    requires Executable(i)
    requires i.op == Nop.Ordinal() || i.op == Hlt.Ordinal()
    ensures Semantics(regs, i).0 == regs
  {
  }

  /** `mov_lit_reg(w, r)` stores w in r, changes no other register, and continues. */
  lemma MovLitRegStores(regs: RegFile, w: Word, r: RegIndex)
    ensures Executable(MakeWordByte(MovLitReg, w, r))
    ensures Semantics(regs, MakeWordByte(MovLitReg, w, r)) == (regs[r := w.val], Ok)
  {
  }

  /**
   * `add_reg_reg(a, b)` stores the sum of registers a and b, wrapped to 16
   * bits, in `ac`, changes no other register, and continues.
   */
  lemma AddRegRegWraps(regs: RegFile, a: RegIndex, b: RegIndex)
    ensures Executable(MakeInstr(AddRegReg, a, b))
    ensures var (after, flow) := Semantics(regs, MakeInstr(AddRegReg, a, b));
      && flow == Ok
      && after[Ac.Index()] == (regs[a] as int + regs[b]) % 0x1_0000
      && (regs[a] as int + regs[b] < 0x1_0000 ==> after[Ac.Index()] == regs[a] as int + regs[b])
      && forall k :: 0 <= k < 16 && k != Ac.Index() ==> after[k] == regs[k]
    ensures Semantics(regs, MakeInstr(AddRegReg, a, b)).0 == regs[Ac.Index() := (regs[a] as int + regs[b]) % 0x1_0000]
  {
  }

  /** The wrap-around example: 0xFFFF + 2 leaves 1 in the accumulator. */
  lemma AddWrapExample()
    ensures var regs := ZEROED[R0.Index() := 0xFFFF][R1.Index() := 2];
      Semantics(regs, MakeInstr(AddRegReg, R0.Index(), R1.Index())).0[Ac.Index()] == 1
  {
  }

  // ---------------------------------------------------------------------
  // the handlers, acting on the CPU in place

  /** `op::nop`: reports `ok`; it has no frame, so no register can change. */
  method OpNop(cpu: Sakuya16c, i: Instr) returns (flow: ControlFlow)
    ensures flow == Ok
  {
    flow := Ok;
  }

  /** `op::hlt`: reports `halt`; it has no frame, so no register can change. */
  method OpHlt(cpu: Sakuya16c, i: Instr) returns (flow: ControlFlow)
    ensures flow == Halt
  {
    flow := Halt;
  }

  /** `op::mov_lit_reg`: the literal in argument bytes 0-1 goes to register `args[2]`. */
  method OpMovLitReg(cpu: Sakuya16c, i: Instr) returns (flow: ControlFlow)
    requires cpu.Valid() && i.args[2] < 16
    modifies cpu.registers
    ensures cpu.registers[..] == old(cpu.registers[..])[i.args[2] := Literal(i)]
    ensures flow == Ok
  {
    var lit := Literal(i);
    cpu.Set(i.args[2], lit);
    flow := Ok;
  }

  /** `op::add_reg_reg`: `ac` receives `args[0] + args[1]` (as registers) modulo 2^16. */
  method OpAddRegReg(cpu: Sakuya16c, i: Instr) returns (flow: ControlFlow)
    requires cpu.Valid() && i.args[0] < 16 && i.args[1] < 16
    modifies cpu.registers
    ensures cpu.registers[..] ==
      old(cpu.registers[..])[Ac.Index() := (old(cpu.registers[i.args[0]]) as int + old(cpu.registers[i.args[1]])) % 0x1_0000]
    ensures flow == Ok
  {
    var val1 := cpu.Reg(i.args[0]);
    var val2 := cpu.Reg(i.args[1]);
    cpu.Set(Ac.Index(), (val1 as int + val2) % 0x1_0000);
    flow := Ok;
  }

  /** `execute`: runs the handler the table holds at the instruction's opcode ordinal. */
  method Execute(cpu: Sakuya16c, i: Instr) returns (flow: ControlFlow)
    requires cpu.Valid() && Executable(i)
    modifies cpu.registers
    ensures (cpu.registers[..], flow) == Semantics(old(cpu.registers[..]), i)
  {
    match OPCODE_TABLE[i.op]
    case NopHandler => flow := OpNop(cpu, i);
    case HltHandler => flow := OpHlt(cpu, i);
    case MovLitRegHandler => flow := OpMovLitReg(cpu, i);
    case AddRegRegHandler => flow := OpAddRegReg(cpu, i);
  }
}
