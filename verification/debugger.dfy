/**
 * The debugger's run loop: it zeroes `pc`, checks that the program is
 * non-empty and ends in `hlt`, then repeatedly fetches the word at `pc / 4`,
 * executes it and sets `pc` to its value before the instruction plus 4,
 * until the instruction just executed is a `hlt`.
 *
 * `RunSteps` is the reference meaning of the first n steps; `Debugger.Execute`
 * is proved to end in the register file `FinalRegisters` describes.
 */
module Debugging {
  import opened Vm
  import opened Engine
  import opened Assembler

  /** The word the program must end with: `(u32) instr(hlt)`. */
  const HLT_WORD: u32 := ToU32(MakeInstr(Hlt))

  /** The loop stops after a word whose opcode byte is `hlt`, whatever its argument bytes. */
  predicate IsHlt(w: u32) {
    FromU32(w).op == Hlt.Ordinal()
  }

  /** The final `hlt` word is the word 1, and it counts as a `hlt`. */
  lemma HltWordValue()
    ensures HLT_WORD == 1 && IsHlt(HLT_WORD)
  {
  }

  /** The two checks the debugger makes before running: non-empty, and the last word is `hlt`. */
  predicate ProgramOk(program: seq<u32>) {
    |program| > 0 && program[|program| - 1] == HLT_WORD
  }

  /** The index of the first `hlt` of a program that has one at its end. */
  function FirstHlt(program: seq<u32>): (k: nat)
    requires |program| > 0 && IsHlt(program[|program| - 1])
    ensures k < |program| && IsHlt(program[k])
    ensures forall j :: 0 <= j < k ==> !IsHlt(program[j])
  {
    if IsHlt(program[0]) then 0
    else
      var k := FirstHlt(program[1..]);
      assert forall j :: 1 <= j < k + 1 ==> program[j] == program[1..][j - 1];
      1 + k
  }

  /**
   * How many instructions the loop executes: none when the first word is
   * already a `hlt` (the loop test sees it before any fetch), otherwise every
   * word up to and including the first `hlt`.
   */
  function StepCount(program: seq<u32>): (n: nat)
    requires |program| > 0 && IsHlt(program[|program| - 1])
    ensures n <= |program|
    ensures n == 0 <==> IsHlt(program[0])
  {
    if FirstHlt(program) == 0 then 0 else FirstHlt(program) + 1
  }

  /** The instructions the loop executes run inside the defined behaviour, and `pc` does not wrap. */
  predicate RunsCleanly(program: seq<u32>)
    requires |program| > 0 && IsHlt(program[|program| - 1])
  {
    && FirstHlt(program) < 0x4000
    && forall j :: 0 <= j < FirstHlt(program) ==> Executable(FromU32(program[j]))
  }

  /** One loop iteration on a register file: execute `w`, then `pc` becomes its old value plus 4. */
  function Step(regs: RegFile, w: u32): RegFile
    requires Executable(FromU32(w))
  {
    Semantics(regs, FromU32(w)).0[Pc.Index() := (regs[Pc.Index()] as int + 4) % 0x1_0000]
  }

  /** Adding 4 after reducing modulo 2^16 is adding 4 before it. */
  lemma ModAddFour(a: int)
    ensures (a % 0x1_0000 + 4) % 0x1_0000 == (a + 4) % 0x1_0000
  {
  }

  /** The register file after executing the first n words in order. */
  function RunSteps(regs: RegFile, program: seq<u32>, n: nat): RegFile
    requires n <= |program|
    requires forall j :: 0 <= j < n ==> Executable(FromU32(program[j]))
  {
    if n == 0 then regs else Step(RunSteps(regs, program, n - 1), program[n - 1])
  }

  /** A `hlt` word is always executable. */
  lemma HltExecutable(w: u32)
    requires IsHlt(w)
    ensures Executable(FromU32(w))
  {
  }

  /** The register file a run ends in, from the register file it starts in. */
  function FinalRegisters(regs: RegFile, program: seq<u32>): RegFile
    requires |program| > 0 && IsHlt(program[|program| - 1]) && RunsCleanly(program)
  {
    HltExecutable(program[FirstHlt(program)]);
    RunSteps(regs, program, StepCount(program))
  }

  /** `pc` advances by exactly 4 per step, modulo 2^16, whatever the instructions write to it. */
  lemma {:induction false} RunStepsPc(regs: RegFile, program: seq<u32>, n: nat)
    requires n <= |program|
    requires forall j :: 0 <= j < n ==> Executable(FromU32(program[j]))
    ensures RunSteps(regs, program, n)[Pc.Index()] == (regs[Pc.Index()] as int + 4 * n) % 0x1_0000
  {
    if n > 0 {
      RunStepsPc(regs, program, n - 1);
      ModAddFour(regs[Pc.Index()] as int + 4 * (n - 1));
    }
  }

  /** A run from `pc` = 0 ends with `pc` at four times the number of executed instructions. */
  lemma FinalPc(regs: RegFile, program: seq<u32>)
    requires |program| > 0 && IsHlt(program[|program| - 1]) && RunsCleanly(program)
    requires regs[Pc.Index()] == 0
    ensures FinalRegisters(regs, program)[Pc.Index()] == (4 * StepCount(program)) % 0x1_0000
    ensures StepCount(program) < 0x4000 ==> FinalRegisters(regs, program)[Pc.Index()] == 4 * StepCount(program)
  {
    HltExecutable(program[FirstHlt(program)]);
    RunStepsPc(regs, program, StepCount(program));
  }

  /** A program of `nop`s and `hlt`s changes no register but `pc`. */
  lemma {:induction false} NopsOnlyMovePc(regs: RegFile, program: seq<u32>, n: nat)
    requires n <= |program|
    requires forall j :: 0 <= j < n ==> FromU32(program[j]).op < 2
    ensures forall j :: 0 <= j < n ==> Executable(FromU32(program[j]))
    ensures forall r :: 0 <= r < 16 && r != Pc.Index() ==> RunSteps(regs, program, n)[r] == regs[r]
  {
    if n > 0 {
      NopsOnlyMovePc(regs, program, n - 1);
    }
  }

  /**
   * The loop test: having run n words, the loop stops exactly when it has
   * run `StepCount` words; before that, the next word is still before the
   * first `hlt` or is that `hlt`.
   */
  lemma LoopExit(program: seq<u32>, n: nat)
    requires |program| > 0 && IsHlt(program[|program| - 1])
    requires n <= FirstHlt(program) + 1 && (n > 0 ==> FirstHlt(program) > 0)
    ensures IsHlt(program[if n == 0 then 0 else n - 1]) ==> n == StepCount(program)
    ensures !IsHlt(program[if n == 0 then 0 else n - 1]) ==> n <= FirstHlt(program) && FirstHlt(program) > 0
  {
  }

  /** Every word up to and including the first `hlt` of a cleanly running program is executable. */
  lemma PrefixExecutable(program: seq<u32>, n: nat)
    requires |program| > 0 && IsHlt(program[|program| - 1]) && RunsCleanly(program)
    requires n <= FirstHlt(program)
    ensures forall j :: 0 <= j <= n ==> Executable(FromU32(program[j]))
  {
    forall j | 0 <= j <= n ensures Executable(FromU32(program[j])) {
      if j == FirstHlt(program) {
        HltExecutable(program[j]);
      }
    }
  }

  /** While `pc` has not wrapped, `pc / 4` is the number of completed iterations. */
  lemma FetchIndex(n: nat)
    requires n < 0x4000
    ensures (4 * n) % 0x1_0000 == 4 * n && (4 * n) / 4 == n
  {
  }

  /**
   * One iteration of the loop after n completed ones: fetching at `pc / 4`
   * fetches word n, and executing it then setting `pc` to its old value
   * plus 4 yields the register file of n + 1 steps.
   */
  lemma LoopIteration(start: RegFile, program: seq<u32>, n: nat, before: RegFile, after: RegFile)
    requires n < |program| && n < 0x4000
    requires forall j :: 0 <= j <= n ==> Executable(FromU32(program[j]))
    requires before == RunSteps(start, program, n) && before[Pc.Index()] == (4 * n) % 0x1_0000
    requires after == Semantics(before, FromU32(program[before[Pc.Index()] / 4])).0[Pc.Index() := (before[Pc.Index()] as int + 4) % 0x1_0000]
    ensures before[Pc.Index()] / 4 == n
    ensures after == RunSteps(start, program, n + 1)
    ensures after[Pc.Index()] == (4 * (n + 1)) % 0x1_0000
  {
    FetchIndex(n);
    assert program[before[Pc.Index()] / 4] == program[n];
  }

  /** Why the debugger refused to run a program. */
  datatype AbortReason = EmptyProgram | NoFinalHlt

  /** How `debugger::execute` ended. */
  datatype RunOutcome = Halted | Aborted(reason: AbortReason)

  /** The debugger: it owns one CPU, zeroed at construction. */
  class Debugger {
    const cpu: Sakuya16c

    ghost predicate Valid()
      reads this, cpu
    {
      cpu.Valid()
    }

    constructor ()
      ensures Valid() && fresh(cpu) && fresh(cpu.registers)
      ensures cpu.registers[..] == ZEROED
    {
      cpu := new Sakuya16c();
    }

    /**
     * One iteration of the loop body after n completed ones: fetch the word
     * at `pc / 4`, execute it, and set `pc` to its old value plus 4.
     */
    method FetchExecute(program: seq<u32>, ghost start: RegFile, ghost n: nat) returns (next: Instr)
      requires Valid()
      requires n < |program| && n < 0x4000
      requires forall j :: 0 <= j <= n ==> Executable(FromU32(program[j]))
      requires cpu.registers[..] == RunSteps(start, program, n)
      requires cpu.registers[Pc.Index()] == (4 * n) % 0x1_0000
      modifies cpu.registers
      ensures Valid()
      ensures next == FromU32(program[n])
      ensures cpu.registers[..] == RunSteps(start, program, n + 1)
      ensures cpu.registers[Pc.Index()] == (4 * (n + 1)) % 0x1_0000
    {
      FetchIndex(n);
      ghost var before: RegFile := cpu.registers[..];
      var pc := cpu.Reg(Pc.Index());
      next := FromU32(program[pc / 4]);
      var _ := Engine.Execute(cpu, next);
      cpu.Set(Pc.Index(), (pc as int + 4) % 0x1_0000);
      LoopIteration(start, program, n, before, cpu.registers[..]);
    }

    /**
     * `debugger::execute`: `pc` is zeroed first; an empty program, or one
     * whose last word is not `hlt`, is refused with the registers otherwise
     * as they were. Otherwise the loop runs to the first `hlt` and the
     * registers end as `FinalRegisters` of the zeroed-`pc` register file.
     */
    method Execute(program: seq<u32>) returns (r: RunOutcome)
      requires Valid()
      requires ProgramOk(program) ==> IsHlt(program[|program| - 1]) && RunsCleanly(program)
      modifies cpu.registers
      ensures Valid()
      ensures |program| == 0 ==> r == Aborted(EmptyProgram)
      ensures |program| > 0 && program[|program| - 1] != HLT_WORD ==> r == Aborted(NoFinalHlt)
      ensures r.Aborted? ==> cpu.registers[..] == old(cpu.registers[..])[Pc.Index() := 0]
      ensures ProgramOk(program) ==> r == Halted
      ensures ProgramOk(program) ==>
        cpu.registers[..] == FinalRegisters(old(cpu.registers[..])[Pc.Index() := 0], program)
    {
      cpu.Set(Pc.Index(), 0);
      if |program| == 0 {
        return Aborted(EmptyProgram);
      }
      if program[|program| - 1] != HLT_WORD {
        return Aborted(NoFinalHlt);
      }
      HltWordValue();
      ghost var start: RegFile := cpu.registers[..];
      ghost var k := FirstHlt(program);
      HltExecutable(program[k]);
      var next := FromU32(program[0]);
      ghost var n: nat := 0;
      while next.op != Hlt.Ordinal()
        invariant Valid()
        invariant n <= k + 1
        invariant n > 0 ==> k > 0
        invariant next == FromU32(program[if n == 0 then 0 else n - 1])
        invariant forall j :: 0 <= j < n ==> Executable(FromU32(program[j]))
        invariant cpu.registers[..] == RunSteps(start, program, n)
        invariant cpu.registers[Pc.Index()] == (4 * n) % 0x1_0000
        decreases k + 1 - n
      {
        LoopExit(program, n);
        PrefixExecutable(program, n);
        next := FetchExecute(program, start, n);
        n := n + 1;
      }
      LoopExit(program, n);
      return Halted;
    }
  }

  // ---------------------------------------------------------------------
  // the test program

  /**
   * One loop iteration, at `pc`, on a word that decodes to `nop` or `hlt`:
   * only `pc` changes, moving on by 4.
   */
  lemma StepNopHlt(s: RegFile, pc: u16, w: u32)
    requires FromU32(w) == MakeInstr(Nop) || FromU32(w) == MakeInstr(Hlt)
    ensures Executable(FromU32(w))
    ensures Step(s[Pc.Index() := pc], w) == s[Pc.Index() := (pc as int + 4) % 0x1_0000]
  {
    var before := s[Pc.Index() := pc];
    assert Semantics(before, FromU32(w)).0 == before;
    assert before[Pc.Index() := (pc as int + 4) % 0x1_0000] == s[Pc.Index() := (pc as int + 4) % 0x1_0000];
  }

  /**
   * One loop iteration, at `pc`, on a word that decodes to
   * `mov_lit_reg v, r` for a register r other than `pc`: r receives v and
   * `pc` moves on by 4.
   */
  lemma StepMovLitReg(s: RegFile, pc: u16, w: u32, v: Word, r: RegIndex)
    requires FromU32(w) == MakeWordByte(MovLitReg, v, r) && r != Pc.Index()
    ensures Executable(FromU32(w))
    ensures Step(s[Pc.Index() := pc], w) == s[r := v.val][Pc.Index() := (pc as int + 4) % 0x1_0000]
  {
    var before := s[Pc.Index() := pc];
    MovLitRegStores(before, v, r);
    assert before[r := v.val][Pc.Index() := (pc as int + 4) % 0x1_0000] == s[r := v.val][Pc.Index() := (pc as int + 4) % 0x1_0000];
  }

  /**
   * One loop iteration, at `pc`, on a word that decodes to
   * `add_reg_reg a, b` for registers other than `pc`: `ac` receives the
   * wrapped sum and `pc` moves on by 4.
   */
  lemma StepAddRegReg(s: RegFile, pc: u16, w: u32, a: RegIndex, b: RegIndex)
    requires FromU32(w) == MakeInstr(AddRegReg, a, b) && a != Pc.Index() && b != Pc.Index()
    ensures Executable(FromU32(w))
    ensures Step(s[Pc.Index() := pc], w)
      == s[Ac.Index() := (s[a] as int + s[b]) % 0x1_0000][Pc.Index() := (pc as int + 4) % 0x1_0000]
  {
    var before := s[Pc.Index() := pc];
    var sum := (s[a] as int + s[b]) % 0x1_0000;
    AddRegRegWraps(before, a, b);
    assert before[a] == s[a] && before[b] == s[b];
    assert before[Ac.Index() := sum][Pc.Index() := (pc as int + 4) % 0x1_0000] == s[Ac.Index() := sum][Pc.Index() := (pc as int + 4) % 0x1_0000];
  }

  /** Extending a run by one executable word: `RunSteps` steps once more from where it was. */
  lemma RunStepsNext(regs: RegFile, program: seq<u32>, n: nat, before: RegFile, after: RegFile)
    requires n < |program|
    requires forall j :: 0 <= j < n ==> Executable(FromU32(program[j]))
    requires Executable(FromU32(program[n]))
    requires RunSteps(regs, program, n) == before && Step(before, program[n]) == after
    ensures forall j :: 0 <= j < n + 1 ==> Executable(FromU32(program[j]))
    ensures RunSteps(regs, program, n + 1) == after
  {
  }

  /** The shape of the test program, with its three literals as parameters: words that decode to these instructions. */
  predicate IsAddProgram(w: seq<u32>, x: Word, y: Word, z: Word) {
    && |w| == 6
    && FromU32(w[0]) == MakeInstr(Nop)
    && FromU32(w[1]) == MakeWordByte(MovLitReg, x, R1.Index())
    && FromU32(w[2]) == MakeWordByte(MovLitReg, y, R2.Index())
    && FromU32(w[3]) == MakeWordByte(MovLitReg, z, R3.Index())
    && FromU32(w[4]) == MakeInstr(AddRegReg, R1.Index(), R2.Index())
    && FromU32(w[5]) == MakeInstr(Hlt)
  }

  /** The test program has that shape with literals 2, 2 and -32734. */
  lemma TestWordsShape()
    ensures IsAddProgram(TEST_WORDS, Word(2), Word(2), WordFromI16(-32734))
  {
    InstrRoundTrip(TEST_PROGRAM[0]);
    InstrRoundTrip(TEST_PROGRAM[1]);
    InstrRoundTrip(TEST_PROGRAM[2]);
    InstrRoundTrip(TEST_PROGRAM[3]);
    InstrRoundTrip(TEST_PROGRAM[4]);
    InstrRoundTrip(TEST_PROGRAM[5]);
  }

  /**
   * The registers other than `pc` after k steps of the shape, from zeroed
   * registers; `ac` is the value the `add_reg_reg` step stores.
   */
  function AddProgramRegs(x: Word, y: Word, z: Word, ac: u16, k: nat): RegFile
    requires k <= 6
  {
    if k <= 1 then ZEROED
    else if k == 2 then ZEROED[R1.Index() := x.val]
    else if k == 3 then AddProgramRegs(x, y, z, ac, 2)[R2.Index() := y.val]
    else if k == 4 then AddProgramRegs(x, y, z, ac, 3)[R3.Index() := z.val]
    else AddProgramRegs(x, y, z, ac, 4)[Ac.Index() := ac]
  }

  /** What the registers hold once the literals and the sum are in place. */
  lemma AddProgramRegsValues(x: Word, y: Word, z: Word, ac: u16)
    ensures AddProgramRegs(x, y, z, ac, 4)[R1.Index()] == x.val && AddProgramRegs(x, y, z, ac, 4)[R2.Index()] == y.val
    ensures var s := AddProgramRegs(x, y, z, ac, 6);
      s[R1.Index()] == x.val && s[R2.Index()] == y.val && s[R3.Index()] == z.val && s[Ac.Index()] == ac
  {
    var s2 := AddProgramRegs(x, y, z, ac, 2);
    var s3 := AddProgramRegs(x, y, z, ac, 3);
    var s4 := AddProgramRegs(x, y, z, ac, 4);
    assert s2[R1.Index()] == x.val;
    assert s3[R1.Index()] == x.val && s3[R2.Index()] == y.val;
    assert s4[R1.Index()] == x.val && s4[R2.Index()] == y.val && s4[R3.Index()] == z.val;
  }

  /** The whole register file after k steps of the shape: `pc` is 4k. */
  function AddProgramState(x: Word, y: Word, z: Word, ac: u16, k: nat): RegFile
    requires k <= 6
  {
    AddProgramRegs(x, y, z, ac, k)[Pc.Index() := 4 * k]
  }

  /** After step 1 of the shape: `nop` moves `pc` to 4. */
  lemma AddProgramSteps1(w: seq<u32>, x: Word, y: Word, z: Word, ac: u16)
    requires IsAddProgram(w, x, y, z) && ac == (x.val + y.val) % 0x1_0000
    ensures forall j :: 0 <= j < 1 ==> Executable(FromU32(w[j]))
    ensures RunSteps(ZEROED, w, 1) == AddProgramState(x, y, z, ac, 1)
  {
    assert ZEROED[Pc.Index() := 0] == ZEROED;
    var s := AddProgramRegs(x, y, z, ac, 0);
    var after := s[Pc.Index() := 4];
    StepNopHlt(s, 0, w[0]);
    RunStepsNext(ZEROED, w, 0, s[Pc.Index() := 0], after);
    assert after == AddProgramState(x, y, z, ac, 1);
  }

  /** After step 2 of the shape: the first literal goes to r1. */
  lemma AddProgramSteps2(w: seq<u32>, x: Word, y: Word, z: Word, ac: u16)
    requires IsAddProgram(w, x, y, z) && ac == (x.val + y.val) % 0x1_0000
    ensures forall j :: 0 <= j < 2 ==> Executable(FromU32(w[j]))
    ensures RunSteps(ZEROED, w, 2) == AddProgramState(x, y, z, ac, 2)
  {
    AddProgramSteps1(w, x, y, z, ac);
    var s := AddProgramRegs(x, y, z, ac, 1);
    var after := s[R1.Index() := x.val][Pc.Index() := 8];
    StepMovLitReg(s, 4, w[1], x, R1.Index());
    RunStepsNext(ZEROED, w, 1, s[Pc.Index() := 4], after);
    assert after == AddProgramState(x, y, z, ac, 2);
  }

  /** After step 3 of the shape: the second literal goes to r2. */
  lemma AddProgramSteps3(w: seq<u32>, x: Word, y: Word, z: Word, ac: u16)
    requires IsAddProgram(w, x, y, z) && ac == (x.val + y.val) % 0x1_0000
    ensures forall j :: 0 <= j < 3 ==> Executable(FromU32(w[j]))
    ensures RunSteps(ZEROED, w, 3) == AddProgramState(x, y, z, ac, 3)
  {
    AddProgramSteps2(w, x, y, z, ac);
    var s := AddProgramRegs(x, y, z, ac, 2);
    var after := s[R2.Index() := y.val][Pc.Index() := 12];
    StepMovLitReg(s, 8, w[2], y, R2.Index());
    RunStepsNext(ZEROED, w, 2, s[Pc.Index() := 8], after);
    assert after == AddProgramState(x, y, z, ac, 3);
  }

  /** After step 4 of the shape: the third literal goes to r3. */
  lemma AddProgramSteps4(w: seq<u32>, x: Word, y: Word, z: Word, ac: u16)
    requires IsAddProgram(w, x, y, z) && ac == (x.val + y.val) % 0x1_0000
    ensures forall j :: 0 <= j < 4 ==> Executable(FromU32(w[j]))
    ensures RunSteps(ZEROED, w, 4) == AddProgramState(x, y, z, ac, 4)
  {
    AddProgramSteps3(w, x, y, z, ac);
    var s := AddProgramRegs(x, y, z, ac, 3);
    var after := s[R3.Index() := z.val][Pc.Index() := 16];
    StepMovLitReg(s, 12, w[3], z, R3.Index());
    RunStepsNext(ZEROED, w, 3, s[Pc.Index() := 12], after);
    assert after == AddProgramState(x, y, z, ac, 4);
  }

  /** After step 5 of the shape: r1 + r2, wrapped, goes to `ac`. */
  lemma AddProgramSteps5(w: seq<u32>, x: Word, y: Word, z: Word, ac: u16)
    requires IsAddProgram(w, x, y, z) && ac == (x.val + y.val) % 0x1_0000
    ensures forall j :: 0 <= j < 5 ==> Executable(FromU32(w[j]))
    ensures RunSteps(ZEROED, w, 5) == AddProgramState(x, y, z, ac, 5)
  {
    AddProgramSteps4(w, x, y, z, ac);
    var s := AddProgramRegs(x, y, z, ac, 4);
    var after := s[Ac.Index() := ac][Pc.Index() := 20];
    AddProgramRegsValues(x, y, z, ac);
    StepAddRegReg(s, 16, w[4], R1.Index(), R2.Index());
    RunStepsNext(ZEROED, w, 4, s[Pc.Index() := 16], after);
    assert after == AddProgramState(x, y, z, ac, 5);
  }

  /** After step 6 of the shape: `hlt` moves `pc` to 24. */
  lemma AddProgramSteps6(w: seq<u32>, x: Word, y: Word, z: Word, ac: u16)
    requires IsAddProgram(w, x, y, z) && ac == (x.val + y.val) % 0x1_0000
    ensures forall j :: 0 <= j < 6 ==> Executable(FromU32(w[j]))
    ensures RunSteps(ZEROED, w, 6) == AddProgramState(x, y, z, ac, 6)
  {
    AddProgramSteps5(w, x, y, z, ac);
    var s := AddProgramRegs(x, y, z, ac, 5);
    var after := s[Pc.Index() := 24];
    StepNopHlt(s, 20, w[5]);
    RunStepsNext(ZEROED, w, 5, s[Pc.Index() := 20], after);
    assert after == AddProgramState(x, y, z, ac, 6);
  }

  /** The shape's only `hlt` is its last word, so the loop runs all six words. */
  lemma AddProgramHalts(w: seq<u32>, x: Word, y: Word, z: Word)
    requires IsAddProgram(w, x, y, z)
    ensures IsHlt(w[5]) && FirstHlt(w) == 5 && StepCount(w) == 6
  {
    assert !IsHlt(w[0]) && !IsHlt(w[1]) && !IsHlt(w[2]) && !IsHlt(w[3]) && !IsHlt(w[4]);
  }

  /**
   * Running the shape from zeroed registers: it stops at its `hlt`, r1, r2
   * and r3 hold the three literals, `ac` the first two wrapped-added, and
   * `pc` ends at 24.
   */
  lemma AddProgramRun(w: seq<u32>, x: Word, y: Word, z: Word)
    requires IsAddProgram(w, x, y, z)
    ensures IsHlt(w[5]) && FirstHlt(w) == 5 && StepCount(w) == 6 && RunsCleanly(w)
    ensures var regs := FinalRegisters(ZEROED, w);
      && regs[R1.Index()] == x.val && regs[R2.Index()] == y.val && regs[R3.Index()] == z.val
      && regs[Ac.Index()] == (x.val + y.val) % 0x1_0000
      && regs[Pc.Index()] == 24
  {
    var ac := (x.val + y.val) % 0x1_0000;
    AddProgramSteps6(w, x, y, z, ac);
    AddProgramRegsValues(x, y, z, ac);
    AddProgramHalts(w, x, y, z);
  }

  /**
   * Running the test program from zeroed registers: r1 = r2 = 2, ac = 4,
   * r3 holds the bit pattern 0x8022 of -32734, and `pc` stops at 24.
   */
  lemma TestProgramRun()
    ensures ProgramOk(TEST_WORDS) && IsHlt(TEST_WORDS[|TEST_WORDS| - 1])
    ensures RunsCleanly(TEST_WORDS)
    ensures var regs := FinalRegisters(ZEROED, TEST_WORDS);
      && regs[R1.Index()] == 2 && regs[R2.Index()] == 2
      && regs[Ac.Index()] == 4 && regs[R3.Index()] == 0x8022
      && regs[Pc.Index()] == 24
  {
    HltWordValue();
    TestWordsShape();
    NegativeLiteralPattern();
    AddProgramRun(TEST_WORDS, Word(2), Word(2), WordFromI16(-32734));
  }
}
