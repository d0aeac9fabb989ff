/**
 * The memory-mapped bus of the sakuya16c: the mapper-device capability
 * (name, inclusive range, remap flag, byte read and write), the derived
 * 16-bit accesses, the banked memory device and the bus that routes an
 * address to a device.
 *
 * Every `assert` the source uses for an out-of-range access is modelled as
 * an explicit fault value.
 */
module Mapper {
  import opened Vm

  // ---------------------------------------------------------------------
  // faults and the derived 16-bit access check

  /** The two conditions the source asserts on in `read16` and `write16`. */
  datatype BusFault = AddressOutOfRange | SecondByteOutOfRange

  /** The outcome of a bus access: a value, or a fault. */
  datatype Access<T> = Done(value: T) | Fault(fault: BusFault)

  /**
   * The range the second-byte check compares against: the device's own
   * inclusive range, or, for a remapping device, that range shifted to
   * start at 0 (the subtraction is 16-bit, as in the source).
   */
  function CheckedRange(range: (u16, u16), remap: bool): (u16, u16) {
    if remap then (0, (range.1 - range.0) % 0x1_0000) else range
  }

  /**
   * The address of the second byte of a 16-bit access at `addr`, or the
   * fault the source raises: address 0xFFFF has no second byte, and the
   * second byte must lie in the checked range.
   */
  function SecondByte(range: (u16, u16), remap: bool, addr: u16): Access<u16> {
    if addr == 0xFFFF then Fault(AddressOutOfRange)
    else
      var (lo, hi) := CheckedRange(range, remap);
      if lo <= addr + 1 <= hi then Done(addr + 1) else Fault(SecondByteOutOfRange)
  }

  /**
   * What the second-byte check accepts: never address 0xFFFF; without remap
   * exactly the addresses whose successor lies in the device range; with
   * remap exactly those whose successor lies in [0, end - start].
   */
  lemma SecondByteCheck(range: (u16, u16), remap: bool, addr: u16)
    ensures addr == 0xFFFF ==> SecondByte(range, remap, addr) == Fault(AddressOutOfRange)
    ensures addr < 0xFFFF && !remap ==>
      (SecondByte(range, remap, addr) == Done(addr + 1) <==> range.0 <= addr + 1 <= range.1)
    ensures addr < 0xFFFF && remap && range.0 <= range.1 ==>
      (SecondByte(range, remap, addr) == Done(addr + 1) <==> addr + 1 <= range.1 - range.0)
    ensures SecondByte(range, remap, addr).Done? ==> SecondByte(range, remap, addr).value == addr + 1
  {
  }

  // ---------------------------------------------------------------------
  // layout of the banked memory

  /** Addresses up to and including SPLIT are in the shared low half. */
  const SPLIT: u16 := 0x8000
  const BANK_COUNT: nat := 4
  /** Capacity of the low half: indices 0x0000..0x8000. */
  const LOW_SIZE: nat := 0x8001
  /** Capacity of each bank: indices addr - 0x8000 for addr in 0x8001..0xFFFF (index 0 is unused). */
  const BANK_SIZE: nat := 0x8000
  /** What the source allocates for the low half (`new u8[0x8000]`). */
  const SOURCE_LOW_SIZE: nat := 0x8000
  /** What the source allocates for each bank (`new u8[0x8000-1]`). */
  const SOURCE_BANK_SIZE: nat := 0x7FFF

  /** Where a byte lives: an index into the low half or into the active bank. */
  datatype Location = Low(index: nat) | High(index: nat)

  /**
   * The split the source performs: `addr <= 0x8000` indexes the low half at
   * addr, anything above indexes a bank at addr - 0x8000. Every location is
   * within the capacities LOW_SIZE and BANK_SIZE.
   */
  function Locate(addr: u16): (loc: Location)
    ensures loc.Low? <==> addr <= SPLIT
    ensures loc.Low? ==> loc.index == addr && loc.index < LOW_SIZE
    ensures loc.High? ==> loc.index == addr - SPLIT && 0 < loc.index < BANK_SIZE
  {
    if addr <= SPLIT then Low(addr) else High(addr - SPLIT)
  }

  /**
   * With the capacities the source allocates, the split reaches one byte
   * past each allocation: address 0x8000 indexes the low half at 0x8000 and
   * address 0xFFFF indexes a bank at 0x7FFF.
   */
  lemma SourceAllocationOverflows()
    ensures Locate(0x8000) == Low(SOURCE_LOW_SIZE)
    ensures Locate(0xFFFF) == High(SOURCE_BANK_SIZE)
  {
  }

  // ---------------------------------------------------------------------
  // the contents of the memory device, as a value

  /** The low half and the four high banks. */
  datatype MemState = MemState(low: seq<u8>, banks: seq<seq<u8>>) {
    predicate WellSized() {
      |low| == LOW_SIZE && |banks| == BANK_COUNT &&
      forall b :: 0 <= b < |banks| ==> |banks[b]| == BANK_SIZE
    }
  }

  /** The byte `memory::read(addr)` returns while register `mb` holds `mb`. */
  function ReadByte(s: MemState, mb: u16, addr: u16): u8
    requires s.WellSized()
  {
    match Locate(addr)
    case Low(i) => s.low[i]
    case High(i) => s.banks[mb % BANK_COUNT][i]
  }

  /** The contents after `memory::write(addr, v)` while register `mb` holds `mb`. */
  function WriteByte(s: MemState, mb: u16, addr: u16, v: u8): (t: MemState)
    requires s.WellSized()
    ensures t.WellSized()
  {
    match Locate(addr)
    case Low(i) => MemState(s.low[i := v], s.banks)
    case High(i) =>
      var b := mb % BANK_COUNT;
      var bank: seq<u8> := s.banks[b][i := v];
      MemState(s.low, s.banks[b := bank])
  }

  /** Reading back under the same bank returns the byte just written. */
  lemma ReadAfterWrite(s: MemState, mb: u16, addr: u16, v: u8)
    requires s.WellSized()
    ensures ReadByte(WriteByte(s, mb, addr, v), mb, addr) == v
  {
  }

  /** A write changes no other address as seen under the same bank. */
  lemma WriteKeepsOtherAddresses(s: MemState, mb: u16, addr: u16, other: u16, v: u8)
    requires s.WellSized() && other != addr
    ensures ReadByte(WriteByte(s, mb, addr, v), mb, other) == ReadByte(s, mb, other)
  {
  }

  /** The low half is shared: what is read there does not depend on `mb`. */
  lemma LowHalfShared(s: MemState, mb1: u16, mb2: u16, addr: u16)
    requires s.WellSized() && addr <= SPLIT
    ensures ReadByte(s, mb1, addr) == ReadByte(s, mb2, addr)
  {
  }

  /** Only `mb % 4` matters: bank numbers 4 apart select the same bank. */
  lemma BankSelectedModFour(s: MemState, mb1: u16, mb2: u16, addr: u16)
    requires s.WellSized() && mb1 % 4 == mb2 % 4
    ensures ReadByte(s, mb1, addr) == ReadByte(s, mb2, addr)
  {
  }

  /**
   * Bank isolation: a high-half write under one bank leaves every other bank
   * unchanged, so a read under another bank sees that bank's earlier byte.
   */
  lemma BankIsolation(s: MemState, mbWrite: u16, mbRead: u16, addr: u16, v: u8)
    requires s.WellSized() && addr > SPLIT && mbWrite % 4 != mbRead % 4
    ensures ReadByte(WriteByte(s, mbWrite, addr, v), mbRead, addr) == ReadByte(s, mbRead, addr)
    ensures forall b :: 0 <= b < BANK_COUNT && b != mbWrite % 4 ==>
      WriteByte(s, mbWrite, addr, v).banks[b] == s.banks[b]
  {
  }

  // ---------------------------------------------------------------------
  // the derived 16-bit accesses on the memory device

  /** `memory::range()`: every address. */
  const MEMORY_RANGE: (u16, u16) := (0x0000, 0xFFFF)

  /** `read16` on the memory device: two byte reads joined low byte first, or a fault. */
  function ReadWord(s: MemState, mb: u16, addr: u16): Access<u16>
    requires s.WellSized()
  {
    match SecondByte(MEMORY_RANGE, false, addr)
    case Fault(f) => Fault(f)
    case Done(b2) => Done(WordFromBytes(ReadByte(s, mb, addr), ReadByte(s, mb, b2)).val)
  }

  /**
   * `write16` on the memory device: the low byte is written first, before
   * any check; the high byte is written at addr + 1 only when that passes.
   */
  function WriteWord(s: MemState, mb: u16, addr: u16, v: u16): (r: (MemState, Access<()>))
    requires s.WellSized()
    ensures r.0.WellSized()
  {
    var w := Word(v);
    var s1 := WriteByte(s, mb, addr, w.Lo());
    match SecondByte(MEMORY_RANGE, false, addr)
    case Fault(f) => (s1, Fault(f))
    case Done(b2) => (WriteByte(s1, mb, b2, w.Hi()), Done(()))
  }

  /**
   * On the memory device a 16-bit read faults exactly at 0xFFFF; otherwise it
   * is the byte at addr plus 256 times the byte at addr + 1.
   */
  lemma ReadWordComposesBytes(s: MemState, mb: u16, addr: u16)
    requires s.WellSized()
    ensures ReadWord(s, mb, addr).Fault? <==> addr == 0xFFFF
    ensures addr == 0xFFFF ==> ReadWord(s, mb, addr) == Fault(AddressOutOfRange)
    ensures addr < 0xFFFF ==>
      ReadWord(s, mb, addr) == Done(ReadByte(s, mb, addr) + 0x100 * ReadByte(s, mb, addr + 1))
  {
  }

  /** A 16-bit write that succeeds is read back unchanged under the same bank. */
  lemma {:induction false} WriteWordThenReadWord(s: MemState, mb: u16, addr: u16, v: u16)
    requires s.WellSized() && addr < 0xFFFF
    ensures WriteWord(s, mb, addr, v).1 == Done(())
    ensures ReadWord(WriteWord(s, mb, addr, v).0, mb, addr) == Done(v)
  {
    var w := Word(v);
    var s1 := WriteByte(s, mb, addr, w.Lo());
    var s2 := WriteByte(s1, mb, addr + 1, w.Hi());
    assert WriteWord(s, mb, addr, v).0 == s2;
    WriteKeepsOtherAddresses(s1, mb, addr + 1, addr, w.Hi());
    ReadAfterWrite(s, mb, addr, w.Lo());
    ReadAfterWrite(s1, mb, addr + 1, w.Hi());
    WordBytesRoundTrip(w);
  }

  /** A 16-bit write at 0xFFFF faults, and its low byte has already been written. */
  lemma WriteWordFaultKeepsLowByte(s: MemState, mb: u16, v: u16)
    requires s.WellSized()
    ensures WriteWord(s, mb, 0xFFFF, v) == (WriteByte(s, mb, 0xFFFF, v % 0x100), Fault(AddressOutOfRange))
  {
  }

  // ---------------------------------------------------------------------
  // the memory device

  /** `dev::memory`: a shared low half and four high banks, selected by the CPU's `mb`. */
  class MemoryDevice {
    const lh: array<u8>
    const hh0: array<u8>
    const hh1: array<u8>
    const hh2: array<u8>
    const hh3: array<u8>
    const cpu: Sakuya16c

    ghost predicate Valid()
      reads this, cpu
    {
      && cpu.Valid()
      && lh.Length == LOW_SIZE
      && hh0.Length == BANK_SIZE && hh1.Length == BANK_SIZE
      && hh2.Length == BANK_SIZE && hh3.Length == BANK_SIZE
      && lh != hh0 && lh != hh1 && lh != hh2 && lh != hh3
      && hh0 != hh1 && hh0 != hh2 && hh0 != hh3
      && hh1 != hh2 && hh1 != hh3
      && hh2 != hh3
    }

    /** The device's contents as a value. */
    ghost function State(): (s: MemState)
      reads this, cpu, lh, hh0, hh1, hh2, hh3
      requires Valid()
      ensures s.WellSized()
    {
      MemState(lh[..], [hh0[..], hh1[..], hh2[..], hh3[..]])
    }

    /** The bank register, re-read on every access. */
    function BankRegister(): u16
      reads this, cpu, cpu.registers
      requires Valid()
    {
      cpu.Reg(Mb.Index())
    }

    /** Allocates the five storage areas; their contents start at zero. */
    constructor (cpu: Sakuya16c)
      requires cpu.Valid()
      ensures Valid() && this.cpu == cpu
      ensures fresh(lh) && fresh(hh0) && fresh(hh1) && fresh(hh2) && fresh(hh3)
      ensures State() == MemState(seq(LOW_SIZE, _ => 0), seq(BANK_COUNT, _ => seq(BANK_SIZE, _ => 0)))
    {
      this.cpu := cpu;
      lh := new u8[LOW_SIZE](_ => 0);
      hh0 := new u8[BANK_SIZE](_ => 0);
      hh1 := new u8[BANK_SIZE](_ => 0);
      hh2 := new u8[BANK_SIZE](_ => 0);
      hh3 := new u8[BANK_SIZE](_ => 0);
      new;
      var zeros: seq<u8> := seq(BANK_SIZE, _ => 0);
      assert lh[..] == seq(LOW_SIZE, _ => 0);
      assert hh0[..] == zeros && hh1[..] == zeros && hh2[..] == zeros && hh3[..] == zeros;
      assert [zeros, zeros, zeros, zeros] == seq(BANK_COUNT, _ => zeros);
    }

    function Name(): string { "MEMORY" }
    function Range(): (u16, u16) { MEMORY_RANGE }
    function RemapRange(): bool { false }

    /** `memory::read`: the byte at `addr` in the low half or in bank `mb % 4`. */
    method Read(addr: u16) returns (v: u8)
      requires Valid()
      ensures v == ReadByte(State(), BankRegister(), addr)
    {
      if addr <= SPLIT {
        return lh[addr];
      }
      var mb := cpu.Reg(Mb.Index()) % 4;
      if mb == 0 {
        v := hh0[addr - SPLIT];
      } else if mb == 1 {
        v := hh1[addr - SPLIT];
      } else if mb == 2 {
        v := hh2[addr - SPLIT];
      } else {
        v := hh3[addr - SPLIT];
      }
    }

    /** `memory::write`: stores `v` at `addr` in the low half or in bank `mb % 4`. */
    method Write(addr: u16, v: u8)
      requires Valid()
      modifies lh, hh0, hh1, hh2, hh3
      ensures State() == WriteByte(old(State()), BankRegister(), addr, v)
    {
      if addr <= SPLIT {
        lh[addr] := v;
        return;
      }
      var mb := cpu.Reg(Mb.Index()) % 4;
      if mb == 0 {
        hh0[addr - SPLIT] := v;
      } else if mb == 1 {
        hh1[addr - SPLIT] := v;
      } else if mb == 2 {
        hh2[addr - SPLIT] := v;
      } else {
        hh3[addr - SPLIT] := v;
      }
    }

    /** `mapper_device::read16`: first byte, range check, second byte. */
    method Read16(addr: u16) returns (r: Access<u16>)
      requires Valid()
      ensures r == ReadWord(State(), BankRegister(), addr)
    {
      var b1 := Read(addr);
      match SecondByte(Range(), RemapRange(), addr)
      case Fault(f) =>
        r := Fault(f);
      case Done(b2Addr) =>
        var b2 := Read(b2Addr);
        r := Done(WordFromBytes(b1, b2).val);
    }

    /** `mapper_device::write16`: low byte, range check, high byte. */
    method Write16(addr: u16, v: u16) returns (r: Access<()>)
      requires Valid()
      modifies lh, hh0, hh1, hh2, hh3
      ensures (State(), r) == WriteWord(old(State()), BankRegister(), addr, v)
    {
      var w := Word(v);
      Write(addr, w.Lo());
      match SecondByte(Range(), RemapRange(), addr)
      case Fault(f) =>
        r := Fault(f);
      case Done(b2Addr) =>
        Write(b2Addr, w.Hi());
        r := Done(());
    }
  }

  // ---------------------------------------------------------------------
  // devices and the bus

  /**
   * A device on the bus: the memory device, or a device supplied by code
   * outside this model, of which the bus only sees the name, range and
   * remap flag.
   */
  datatype Device =
    | Memory(mem: MemoryDevice)
    | Attached(name: string, start: u16, end: u16, remap: bool)
  {
    function Range(): (u16, u16) {
      match this
      case Memory(m) => m.Range()
      case Attached(_, s, e, _) => (s, e)
    }

    function RemapRange(): bool {
      match this
      case Memory(m) => m.RemapRange()
      case Attached(_, _, _, r) => r
    }
  }

  /** Whether `d`'s inclusive range contains `addr`. */
  predicate Claims(d: Device, addr: u16) {
    d.Range().0 <= addr <= d.Range().1
  }

  /** The memory device claims every address and does not remap. */
  lemma MemoryClaimsEverything(m: MemoryDevice, addr: u16)
    ensures Claims(Memory(m), addr) && !Memory(m).RemapRange()
  {
  }

  /** `bus`: the devices in insertion order; the memory device is at index 0. */
  class Bus {
    var mappers: seq<Device>

    ghost predicate Valid()
      reads this
    {
      |mappers| > 0 && mappers[0].Memory?
    }

    /** A new bus holds exactly one device: a memory device over `cpu`. */
    constructor (cpu: Sakuya16c)
      requires cpu.Valid()
      ensures Valid() && |mappers| == 1
      ensures fresh(mappers[0].mem) && mappers[0].mem.Valid() && mappers[0].mem.cpu == cpu
    {
      var m := new MemoryDevice(cpu);
      mappers := [Memory(m)];
    }

    /** `add_mapper`: appends a device; earlier devices keep their positions. */
    method AddMapper(d: Device)
      requires Valid()
      modifies this
      ensures Valid()
      ensures mappers == old(mappers) + [d]
    {
      mappers := mappers + [d];
    }

    /**
     * `find_mapper_for`: addresses above 0x8000 go to device 0 without a
     * scan; otherwise the first device, in insertion order, whose range
     * contains `addr`. With no such device the lookup faults and falls back
     * to device 0. Because device 0 is the memory device, which claims every
     * address, a lookup on a valid bus always yields device 0.
     */
    method FindMapperFor(addr: u16) returns (index: nat, fault: bool)
      requires |mappers| > 0
      ensures index < |mappers|
      ensures addr > SPLIT ==> index == 0 && !fault
      ensures addr <= SPLIT && !fault ==>
        Claims(mappers[index], addr) && forall j :: 0 <= j < index ==> !Claims(mappers[j], addr)
      ensures fault ==> index == 0 && addr <= SPLIT && forall j :: 0 <= j < |mappers| ==> !Claims(mappers[j], addr)
      ensures mappers[0].Memory? ==> index == 0 && !fault
    {
      if addr > SPLIT {
        return 0, false;
      }
      var i := 0;
      while i < |mappers|
        invariant 0 <= i <= |mappers|
        invariant forall j :: 0 <= j < i ==> !Claims(mappers[j], addr)
      {
        if Claims(mappers[i], addr) {
          return i, false;
        }
        i := i + 1;
      }
      return 0, true;
    }
  }
}
