/**
 * The value types of the sakuya16c CPU: fixed-width integers, the 16-bit
 * `word` with its byte view, the opcode and register enumerations, the
 * 4-byte instruction record with its u32 view, and the register file.
 *
 * The source obtains the byte views of `word` and `instr` by reinterpreting
 * host memory; here every byte split is explicit little-endian arithmetic.
 */
module Vm {

  type u8 = x: int | 0 <= x < 0x100
  type u16 = x: int | 0 <= x < 0x1_0000
  type u32 = x: int | 0 <= x < 0x1_0000_0000
  type i16 = x: int | -0x8000 <= x < 0x8000

  // ---------------------------------------------------------------------
  // word

  /** A 16-bit value; `Lo` and `Hi` are its low and high byte. */
  datatype Word = Word(val: u16) {
    function Lo(): u8 { val % 0x100 }
    function Hi(): u8 { val / 0x100 }
  }

  /** `word(u8 lo, u8 hi)`: the word whose byte view is (lo, hi). */
  function WordFromBytes(lo: u8, hi: u8): (w: Word)
    ensures w.Lo() == lo && w.Hi() == hi
  {
    Word(lo + 0x100 * hi)
  }

  /** `word(i16)`: keeps the two's-complement bit pattern of a signed value. */
  function WordFromI16(x: i16): (w: Word)
    ensures w.val % 0x1_0000 == x % 0x1_0000
    ensures x >= 0 ==> w.val == x
    ensures x < 0 <==> w.val >= 0x8000
  {
    Word(if x < 0 then x + 0x1_0000 else x)
  }

  /** Splitting a word into bytes and rebuilding it gives the same word. */
  lemma WordBytesRoundTrip(w: Word)
    ensures WordFromBytes(w.Lo(), w.Hi()) == w
    ensures WordFromBytes(w.Lo(), w.Hi()).val == w.Lo() + 0x100 * w.Hi()
  {
  }

  /** The literal the test program loads into r3. */
  lemma NegativeLiteralPattern()
    ensures WordFromI16(-32734).val == 0x8022
    ensures WordFromI16(-32734).Lo() == 0x22 && WordFromI16(-32734).Hi() == 0x80
  {
  }

  // ---------------------------------------------------------------------
  // registers and opcodes

  type RegIndex = i: int | 0 <= i < 16

  /** The sixteen registers, in the order of their slots in the register file. */
  datatype Reg =
    | Pc | Ac | Sp | Fp | Im | Mb | Ps | Fl
    | R0 | R1 | R2 | R3 | R4 | R5 | R6 | R7
  {
    function Index(): RegIndex {
      match this
      case Pc => 0  case Ac => 1  case Sp => 2  case Fp => 3
      case Im => 4  case Mb => 5  case Ps => 6  case Fl => 7
      case R0 => 8  case R1 => 9  case R2 => 10 case R3 => 11
      case R4 => 12 case R5 => 13 case R6 => 14 case R7 => 15
    }
  }

  /** Distinct registers occupy distinct slots, so every slot has one name. */
  lemma RegIndexInjective(a: Reg, b: Reg)
    ensures a.Index() == b.Index() ==> a == b
  {
  }

  const OPCODE_COUNT: nat := 4

  /** The operation codes, in declaration order. */
  datatype Opcode = Nop | Hlt | MovLitReg | AddRegReg {
    function Ordinal(): (n: u8)
      ensures n < OPCODE_COUNT
    {
      match this
      case Nop => 0
      case Hlt => 1
      case MovLitReg => 2
      case AddRegReg => 3
    }
  }

  /** Distinct opcodes have distinct ordinals. */
  lemma OrdinalInjective(a: Opcode, b: Opcode)
    ensures a.Ordinal() == b.Ordinal() ==> a == b
  {
  }

  // ---------------------------------------------------------------------
  // instr

  type Args = s: seq<u8> | |s| == 3 witness [0, 0, 0]

  /**
   * A 4-byte instruction: the opcode byte and three argument bytes. The
   * opcode is kept as a byte because an instruction rebuilt from a u32 may
   * carry any byte there, not only the ordinal of a declared opcode.
   */
  datatype Instr = Instr(op: u8, args: Args)

  /** `instr(opcode, u8, u8, u8)`; omitted arguments are 0. */
  function MakeInstr(op: Opcode, arg1: u8 := 0, arg2: u8 := 0, arg3: u8 := 0): (i: Instr)
    ensures i.op == op.Ordinal() && i.args == [arg1, arg2, arg3]
  {
    Instr(op.Ordinal(), [arg1, arg2, arg3])
  }

  /** `instr(opcode, u8, word)`: the word occupies the last two argument bytes. */
  function MakeByteWord(op: Opcode, arg1: u8, arg2: Word): (i: Instr)
    ensures i.op == op.Ordinal() && i.args[0] == arg1
    ensures WordFromBytes(i.args[1], i.args[2]) == arg2
  {
    WordBytesRoundTrip(arg2);
    Instr(op.Ordinal(), [arg1, arg2.Lo(), arg2.Hi()])
  }

  /** `instr(opcode, word, u8)`: the word occupies the first two argument bytes. */
  function MakeWordByte(op: Opcode, arg1: Word, arg2: u8): (i: Instr)
    ensures i.op == op.Ordinal() && i.args[2] == arg2
    ensures WordFromBytes(i.args[0], i.args[1]) == arg1
  {
    WordBytesRoundTrip(arg1);
    Instr(op.Ordinal(), [arg1.Lo(), arg1.Hi(), arg2])
  }

  /** `(u32) instr`: byte 0 is the opcode, bytes 1 to 3 the arguments. */
  function ToU32(i: Instr): (v: u32)
    ensures v % 0x100 == i.op
  {
    i.op as int + 0x100 * (i.args[0] as int) + 0x1_0000 * (i.args[1] as int) + 0x100_0000 * (i.args[2] as int)
  }

  /** `instr(u32)`: the inverse byte split. */
  function FromU32(v: u32): (i: Instr)
    ensures ToU32(i) == v
  {
    var q := v / 0x100;
    var r := q / 0x100;
    assert v == v % 0x100 + 0x100 * q && q == q % 0x100 + 0x100 * r && r == r % 0x100 + 0x100 * (r / 0x100);
    Instr(v % 0x100, [q % 0x100, r % 0x100, r / 0x100])
  }

  /** Converting an instruction to u32 and back yields the same instruction. */
  lemma InstrRoundTrip(i: Instr)
    ensures FromU32(ToU32(i)) == i
  {
    var v := ToU32(i);
    var rest: int := i.args[0] as int + 0x100 * (i.args[1] as int) + 0x1_0000 * (i.args[2] as int);
    assert v == i.op as int + 0x100 * rest;
    assert v % 0x100 == i.op && v / 0x100 == rest;
    assert rest % 0x100 == i.args[0] && rest / 0x100 == i.args[1] as int + 0x100 * (i.args[2] as int);
    assert v / 0x1_0000 == rest / 0x100;
    assert v / 0x100_0000 == (rest / 0x100) / 0x100;
  }

  /** Distinct instructions have distinct u32 encodings. */
  lemma ToU32Injective(i: Instr, j: Instr)
    ensures ToU32(i) == ToU32(j) ==> i == j
  {
    InstrRoundTrip(i);
    InstrRoundTrip(j);
  }

  /** The u32 view of the byte-word shape: the word sits in the upper half. */
  lemma ByteWordLayout(op: Opcode, x: u8, w: Word)
    ensures ToU32(MakeByteWord(op, x, w)) == op.Ordinal() + 0x100 * x + 0x1_0000 * w.val
  {
    WordBytesRoundTrip(w);
  }

  /** The u32 view of the word-byte shape: the word sits in bytes 1 and 2. */
  lemma WordByteLayout(op: Opcode, w: Word, x: u8)
    ensures ToU32(MakeWordByte(op, w, x)) == op.Ordinal() + 0x100 * w.val + 0x100_0000 * x
  {
    WordBytesRoundTrip(w);
  }

  // ---------------------------------------------------------------------
  // sakuya16c

  type RegFile = s: seq<u16> | |s| == 16 witness seq(16, _ => 0)

  /** The register file after `reset()` or default construction. */
  const ZEROED: RegFile := [0, 0, 0, 0, 0, 0, 0, 0, 0, 0, 0, 0, 0, 0, 0, 0]

  /** The CPU state: sixteen 16-bit registers stored contiguously. */
  class Sakuya16c {
    const registers: array<u16>

    ghost predicate Valid()
      reads this
    {
      registers.Length == 16
    }

    /** A freshly constructed CPU has every register at zero. */
    constructor ()
      ensures Valid() && fresh(registers)
      ensures registers[..] == ZEROED
    {
      registers := new u16[16](_ => 0);
    }

    /** `reg(r)`: the value of a register. */
    function Reg(r: RegIndex): u16
      reads this, registers
      requires Valid()
    {
      registers[r]
    }

    /** `set(r, v)`: register r now holds v and every other register is unchanged. */
    method Set(r: RegIndex, v: u16)
      requires Valid()
      modifies registers
      ensures registers[..] == old(registers[..])[r := v]
      ensures Reg(r) == v
    {
      registers[r] := v;
    }

    /** `reset()`: all sixteen registers become zero. */
    method Reset()
      requires Valid()
      modifies registers
      ensures registers[..] == ZEROED
    {
      forall k | 0 <= k < 16 {
        registers[k] := 0;
      }
    }
  }
}
