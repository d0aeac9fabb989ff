# remi16 / sakuya16c in Dafny

A verified model of the core of remi16, a 16-bit fantasy console, and of its
CPU, the sakuya16c. The model covers:

- **Vm** (`vm.dfy`): the 16-bit `word` with its byte view and its
  two's-complement constructor. Also the register and opcode enumerations,
  the 4-byte `instr` with its three constructors and its u32 view, and the
  CPU's 16-register file as a class over an array (`set`, `reg`, `reset`).
- **Engine** (`engine.dfy`): the four instruction handlers, the opcode table
  and `execute`. The handlers update the register array in place. They are
  proved against `Semantics`, a pure reference meaning of one instruction.
- **Mapper** (`mapper.dfy`): the banked memory device over five arrays. It
  has a shared low half and four high banks selected by `mb % 4`. Also here:
  the 16-bit accesses derived from byte reads and writes, with their
  range faults, and the bus with `add_mapper` and `find_mapper_for`. The
  bus's memory device is its first device and claims `[0x0000, 0xFFFF]`,
  and `find_mapper_for` scans in insertion order. So on every bus the
  constructor builds, every lookup returns the memory device, and a device
  added with `add_mapper` is never found (`Mapper.Bus.FindMapperFor`, last
  ensures, with `Bus.Valid`).
- **RomLoader** (`rom_loader.dfy`): reading a ROM image (header, region
  directory) and the lazily filled region cache of `get_region`. The image
  is an in-memory byte sequence.
- **Assembler** (`assembler.dfy`): the ROM writer (header, directory and
  payload, written in sequence) and the encoded test program. The main
  round-trip is proved here: reading back what the writer produces gives
  the region map and the program bytes.
- **Debugging** (`debugger.dfy`): the debugger's fetch / execute / advance
  loop over a program of u32 words. It is proved against `RunSteps`, a pure
  step-by-step reference. A lemma (`TestProgramRun`) proves the outcome of
  running the test program.

Conventions:
- Integers are unbounded in Dafny. Every 16-bit wrap of the source is written
  out as `% 0x1_0000`.
- Byte views obtained in the source by reinterpreting memory are explicit
  little-endian arithmetic.
- Every `assert` of the source becomes an explicit error or fault value.
- Out-of-range register indices and opcodes are undefined behaviour in the
  source, so they are preconditions here.

The literal `-32734` of the test program, as a 16-bit pattern, is
`65536 - 32734 = 32802 = 0x8022`.

## Model

| member | source | states |
|---|---|---|
| Vm.WordFromBytes | remi_vm/vm.hpp:53 | the word built from (lo, hi) has exactly that low and high byte |
| Vm.WordFromI16 | remi_vm/vm.hpp:49-51 | the i16 constructor keeps the two's-complement pattern: equal modulo 2^16, unchanged when non-negative, top bit set exactly for negatives |
| Vm.WordBytesRoundTrip | remi_vm/vm.hpp:39-54 | splitting a word into bytes and rebuilding it gives the same word, and `val == lo + 256*hi` |
| Vm.NegativeLiteralPattern | remi_assembler/main.cpp:28 | `word(i16(-32734))` is 0x8022, bytes 0x22 and 0x80 |
| Vm.RegIndexInjective | remi_vm/vm.hpp:59-78 | distinct registers occupy distinct slots of the register file |
| Vm.Opcode.Ordinal | remi_vm/vm.hpp:81-87 | every opcode's ordinal is below the opcode count 4 |
| Vm.OrdinalInjective | remi_vm/vm.hpp:81-87 | distinct opcodes have distinct ordinals |
| Vm.MakeInstr | remi_vm/vm.hpp:97-101 | `instr(op, a, b, c)` has opcode byte `op` and arguments exactly `[a, b, c]`; omitted arguments are 0 |
| Vm.MakeByteWord | remi_vm/vm.hpp:104-108 | `instr(op, u8, word)`: argument 0 is the byte, arguments 1-2 rebuild the word |
| Vm.MakeWordByte | remi_vm/vm.hpp:111-115 | `instr(op, word, u8)`: arguments 0-1 rebuild the word, argument 2 is the byte |
| Vm.ToU32 | remi_vm/vm.hpp:120 | the opcode occupies the low byte of the u32 view |
| Vm.FromU32 | remi_vm/vm.hpp:118 | every u32 is the u32 view of the instruction built from it |
| Vm.InstrRoundTrip | remi_vm/vm.hpp:117-122 | converting an instruction to u32 and back yields the same instruction |
| Vm.ToU32Injective | remi_vm/vm.hpp:117-122 | distinct instructions have distinct u32 views |
| Vm.ByteWordLayout | remi_vm/vm.hpp:104-108 | the u32 view of `instr(op, x, w)` is `op + 2^8*x + 2^16*w` |
| Vm.WordByteLayout | remi_vm/vm.hpp:111-115 | the u32 view of `instr(op, w, x)` is `op + 2^8*w + 2^24*x` |
| Vm.Sakuya16c.constructor | remi_vm/vm.hpp:143 | a new CPU has all sixteen registers at zero |
| Vm.Sakuya16c.Reg | remi_vm/vm.hpp:150 | `reg(r)`: the value held in slot r of the register array |
| Vm.Sakuya16c.Set | remi_vm/vm.hpp:148-150 | after `set(r, v)`, `reg(r) == v` and every other register is unchanged |
| Vm.Sakuya16c.Reset | remi_vm/vm.hpp:152-155 | `reset()` makes all sixteen registers zero |
| Engine.OpcodeTableMatchesEnum | remi_vm/vm.cpp:63-72 | the table has one entry per opcode and entry i is the handler of the opcode with ordinal i |
| Engine.Literal | remi_vm/vm.cpp:37 | the 16-bit literal of `mov_lit_reg`: `args[0] + 256*args[1]`, the little-endian reading of argument bytes 0-1 |
| Engine.Semantics | remi_vm/vm.cpp:26-58 | the reference meaning of one instruction: the handler the table holds at its opcode applied to a register file, with the reported flow |
| Engine.HaltExactlyOnHlt | remi_vm/vm.cpp:26-58 | no instruction reports `error`, and an instruction reports `halt` exactly when its opcode is `hlt` |
| Engine.NopHltPreserveRegisters | remi_vm/vm.cpp:26-31 | `nop` and `hlt` leave every register unchanged |
| Engine.MovLitRegStores | remi_vm/vm.cpp:36-43 | `mov_lit_reg(w, r)` stores w in r, changes nothing else and reports `ok` |
| Engine.AddRegRegWraps | remi_vm/vm.cpp:48-58 | `add_reg_reg(a, b)` sets `ac` to `(reg a + reg b) mod 2^16`, exactly the sum when it fits, changes no other register and reports `ok` |
| Engine.AddWrapExample | remi_vm/vm.cpp:55 | 0xFFFF + 2 leaves 1 in `ac` |
| Engine.OpNop | remi_vm/vm.cpp:26 | `nop` reports `ok` and has no frame to change registers in |
| Engine.OpHlt | remi_vm/vm.cpp:31 | `hlt` reports `halt` and has no frame to change registers in |
| Engine.OpMovLitReg | remi_vm/vm.cpp:36-43 | the register array becomes the old one with `args[2]` set to `args[0] + 256*args[1]` |
| Engine.OpAddRegReg | remi_vm/vm.cpp:48-58 | the register array becomes the old one with `ac` set to the wrapped sum of the two named registers |
| Engine.Execute | remi_vm/vm.cpp:75-78 | dispatching through the table updates the registers and reports the flow exactly as `Semantics` says, for an opcode below the table length |
| Mapper.SecondByteCheck | remi_vm/mapper.cpp:26-46 | address 0xFFFF faults; otherwise the second byte is accepted exactly when `addr + 1` lies in the device range, or in `[0, end - start]` for a remapping device |
| Mapper.CheckedRange | remi_vm/mapper.cpp:26-29 | the range the second-byte check uses: the device range, or `[0, end - start]` (16-bit subtraction) when the device remaps |
| Mapper.SecondByte | remi_vm/mapper.cpp:31-46 | the second-byte address `addr + 1` of a 16-bit access, or the fault: out of range at 0xFFFF, second byte outside the checked range |
| Mapper.Locate | remi_vm/mapper.cpp:107-121 | addresses up to 0x8000 index the low half at addr, higher ones a bank at `addr - 0x8000`, always within the corrected capacities |
| Mapper.SourceAllocationOverflows | remi_vm/mapper.cpp:99-104 | with the allocated sizes, address 0x8000 and address 0xFFFF index one byte past the low half and past a bank |
| Mapper.ReadByte | remi_vm/mapper.cpp:107-122 | `memory::read` on the contents as a value: the low half at addr up to 0x8000, else bank `mb % 4` at `addr - 0x8000` |
| Mapper.WriteByte | remi_vm/mapper.cpp:124-139 | a byte write keeps the memory well-sized |
| Mapper.ReadAfterWrite | remi_vm/mapper.cpp:107-139 | reading under the same bank returns the byte just written |
| Mapper.WriteKeepsOtherAddresses | remi_vm/mapper.cpp:107-139 | a byte write changes no other address under the same bank |
| Mapper.LowHalfShared | remi_vm/mapper.cpp:108-110 | reads at addresses up to 0x8000 do not depend on `mb` |
| Mapper.BankSelectedModFour | remi_vm/mapper.cpp:112 | only `mb % 4` selects the bank |
| Mapper.BankIsolation | remi_vm/mapper.cpp:130-135 | a high write under one bank leaves every other bank unchanged |
| Mapper.ReadWord | remi_vm/mapper.cpp:21-47 | `read16` on the memory device as a value: the second-byte check, then both bytes joined low byte first |
| Mapper.WriteWord | remi_vm/mapper.cpp:49-75 | a 16-bit write keeps the memory well-sized |
| Mapper.ReadWordComposesBytes | remi_vm/mapper.cpp:21-47 | a 16-bit read of memory faults exactly at 0xFFFF, else it is `read(addr) + 256*read(addr+1)` |
| Mapper.WriteWordThenReadWord | remi_vm/mapper.cpp:21-75 | a 16-bit write below 0xFFFF succeeds and reads back unchanged |
| Mapper.WriteWordFaultKeepsLowByte | remi_vm/mapper.cpp:49-64 | a 16-bit write at 0xFFFF faults after its low byte is already written |
| Mapper.MemoryDevice.constructor | remi_vm/mapper.cpp:98-105 | the device's five storage areas are fresh and zero |
| Mapper.MemoryDevice.Name | remi_vm/mapper.hpp:68 | the device name "MEMORY" |
| Mapper.MemoryDevice.Range | remi_vm/mapper.hpp:69 | the inclusive range `[0x0000, 0xFFFF]` |
| Mapper.MemoryDevice.RemapRange | remi_vm/mapper.hpp:70 | the memory device does not remap |
| Mapper.MemoryDevice.Read | remi_vm/mapper.cpp:107-122 | the byte returned is `ReadByte` of the contents under the current `mb` |
| Mapper.MemoryDevice.Write | remi_vm/mapper.cpp:124-139 | the new contents are `WriteByte` of the old under the current `mb` |
| Mapper.MemoryDevice.Read16 | remi_vm/mapper.cpp:21-47 | first byte, range check, second byte: the result is `ReadWord` of the contents |
| Mapper.MemoryDevice.Write16 | remi_vm/mapper.cpp:49-75 | low byte, range check, high byte: contents and outcome are `WriteWord` of the old contents |
| Mapper.MemoryClaimsEverything | remi_vm/mapper.hpp:69-70 | the memory device claims every address and does not remap |
| Mapper.Bus.constructor | remi_vm/mapper.hpp:80 | a new bus holds exactly one device, a memory device over the CPU |
| Mapper.Bus.AddMapper | remi_vm/mapper.hpp:84 | the device is appended; earlier devices keep their order |
| Mapper.Bus.FindMapperFor | remi_vm/mapper.cpp:77-94 | above 0x8000 device 0 without a scan; otherwise the first device in insertion order that claims the address; with none a fault and device 0; with the memory device first, always device 0 |
| RomLoader.RegionBytes | remi_debugger/rom_loader.cpp:70-82 | a region read yields exactly `size` bytes of the image from `offset`; a region of size 0 is empty wherever its offset lies; an unknown id and a region of nonzero size running past the end are errors, and only they are |
| RomLoader.EntryAt | remi_debugger/rom_loader.cpp:51-63 | directory entry i at bytes `8 + 16i` onward: id u32, offset u32, size, loadat and bank u16; the reserved u16 is dropped |
| RomLoader.Directory | remi_debugger/rom_loader.cpp:48-65 | the region map after the first n entries, read in order, a later id overwriting an earlier one |
| RomLoader.Parse | remi_debugger/rom_loader.cpp:29-68 | the reference reading of an image, checked in order: under 4 bytes is `Truncated`; a wrong magic is `BadMagic`; too short for the header or the counted directory is `Truncated`; otherwise the region map of the counted entries |
| RomLoader.BadMagicRejected | remi_debugger/rom_loader.cpp:33-39 | an image not starting with `0x7F 'r' '1' '6'` is rejected |
| RomLoader.DirectoryKeys | remi_debugger/rom_loader.cpp:50-65 | an id is in the region map exactly when some directory entry carries it |
| RomLoader.DirectoryLastWins | remi_debugger/rom_loader.cpp:64 | of several entries with the same id, the last is kept |
| RomLoader.DirectoryDependsOnEntries | remi_debugger/rom_loader.cpp:50-65 | the region map depends on nothing but the decoded entries |
| RomLoader.VersionBytesIgnored | remi_debugger/rom_loader.cpp:41-44 | changing the two version bytes does not change the reading |
| RomLoader.ReservedFieldIgnored | remi_debugger/rom_loader.cpp:61-64 | changing an entry's reserved field does not change the reading |
| RomLoader.ReadDirectory | remi_debugger/rom_loader.cpp:48-65 | the field-by-field loop yields `Directory`, or a truncation error exactly when the entries run past the image |
| RomLoader.LoadedRom.constructor | remi_debugger/rom_loader.cpp:30 | a loaded ROM starts with an empty region cache |
| RomLoader.LoadedRom.GetRegion | remi_debugger/rom_loader.cpp:70-82 | the result is `RegionBytes`; a cached id is served without change to the cache, a new one is added, errors leave it as it was |
| RomLoader.LoadRom | remi_debugger/rom_loader.cpp:29-68 | loading fails exactly when `Parse` does, with the same error; otherwise the region map is `Parse`'s and the cache is empty |
| Assembler.U16BytesRead | remi_assembler/main.hpp:56 | a u16 written little-endian is read back unchanged |
| Assembler.U16Bytes | remi_assembler/main.hpp:56 | a u16 written as its 2 little-endian bytes |
| Assembler.U32Bytes | remi_assembler/main.hpp:56 | a u32 written as its 4 little-endian bytes, low half first |
| Assembler.U32BytesRead | remi_assembler/main.hpp:56 | a u32 written little-endian is read back unchanged |
| Assembler.InstrWireBytes | remi_assembler/main.cpp:64 | a program word is written as the opcode byte then the three argument bytes |
| Assembler.HeaderBytes | remi_assembler/main.cpp:35-50 | the 8 header bytes: magic, major 0, minor 1, region count truncated to u16 |
| Assembler.EntryBytes | remi_assembler/main.cpp:54-59 | the 16 bytes of one entry: id, offset as u32; size, loadat, bank, reserved as u16 |
| Assembler.DirectoryBytes | remi_assembler/main.cpp:53-60 | the entries of all regions in order, 16 bytes each |
| Assembler.PayloadBytes | remi_assembler/main.cpp:62-65 | every program word as 4 bytes, in order |
| Assembler.EncodeRom | remi_assembler/main.cpp:33-67 | the whole image: header, directory, payload; its length is `8 + 16 × regions + 4 × words` |
| Assembler.DirectoryBytesStep | remi_assembler/main.cpp:53-60 | one more region appends exactly that region's 16 bytes |
| Assembler.PayloadBytesStep | remi_assembler/main.cpp:63-65 | one more word appends exactly that word's 4 bytes |
| Assembler.WriteHeader | remi_assembler/main.cpp:35-50 | the header is the magic, major 0, minor 1 and the region count as u16 |
| Assembler.WriteEntry | remi_assembler/main.cpp:54-59 | the six fields of one entry are appended in the order id, offset, size, loadat, bank, reserved |
| Assembler.WriteDirectory | remi_assembler/main.cpp:53-60 | the loop appends every entry in order |
| Assembler.WritePayload | remi_assembler/main.cpp:63-65 | the loop appends every program word in order |
| Assembler.WriteRom | remi_assembler/main.cpp:33-67 | the sequential writes produce exactly `EncodeRom` |
| Assembler.EntryFields | remi_assembler/main.cpp:54-59 | each field of an entry is read back at its offset within the 16 bytes |
| Assembler.DirectoryBytesAt | remi_assembler/main.cpp:53-60 | entry i of the directory occupies bytes 16i to 16i+15 |
| Assembler.PayloadBytesAt | remi_assembler/main.cpp:63-65 | word j of the payload occupies bytes 4j to 4j+3 |
| Assembler.EncodedHeader | remi_assembler/main.cpp:35-50 | the image starts with the magic, major 0, minor 1, and a count equal to the number of regions modulo 2^16 |
| Assembler.EncodedEntry | remi_debugger/rom_loader.cpp:50-64 | the loader decodes entry i of the image as region i's id and fields |
| Assembler.EncodedDirectory | remi_debugger/rom_loader.cpp:50-65 | reading n entries of the image gives the region map of the first n regions |
| Assembler.EncodedPassesHeader | remi_debugger/rom_loader.cpp:33-50 | a written image passes the magic check and holds its whole directory |
| Assembler.ParseEncodeRoundTrip | remi_debugger/rom_loader.cpp:29-68 | reading back a written image gives exactly the region map of the written regions |
| Assembler.RegionAtEnd | remi_debugger/rom_loader.cpp:74-76 | a region ending at the end of the image reads as the image's tail |
| Assembler.PayloadAtEnd | remi_assembler/main.cpp:62-65 | the payload follows the directory to the end of the image |
| Assembler.EncodedEntryKept | remi_debugger/rom_loader.cpp:64 | a region not overridden by a later one is kept with its fields |
| Assembler.PayloadRoundTrip | remi_debugger/rom_loader.cpp:70-82 | a region placed right after the directory and sized 4 × words reads back as the program bytes |
| Assembler.AssembleTestRom | remi_assembler/main.cpp:23-69 | the test ROM is `EncodeRom` of the main region and the six-word program, 48 bytes long |
| Assembler.TestRomRoundTrip | remi_assembler/main.cpp:44-47 | offset 24 is the header plus one entry, size is 24, and region 0 reads back as the program bytes |
| Assembler.TestProgramShape | remi_assembler/main.cpp:24-31 | the program ends with `hlt`; word 3 carries bytes 0x22 0x80 and targets r3 |
| Debugging.HltWordValue | remi_debugger/debugger.cpp:27 | the required final word is 1 and counts as `hlt` |
| Debugging.ProgramOk | remi_debugger/debugger.cpp:26-27 | the two checks before running: the program is non-empty and its last word is `(u32) instr(hlt)` |
| Debugging.FirstHlt | remi_debugger/debugger.cpp:29-38 | the first `hlt` of a program ending with one: in bounds, a `hlt`, and no earlier `hlt` |
| Debugging.StepCount | remi_debugger/debugger.cpp:29-38 | the loop runs at most the program length, and none at all exactly when word 0 is `hlt` |
| Debugging.Step | remi_debugger/debugger.cpp:32-37 | one loop iteration on a register file: execute the word, then `pc` becomes its old value plus 4, modulo 2^16 |
| Debugging.RunSteps | remi_debugger/debugger.cpp:29-38 | the register file after executing the first n words in order |
| Debugging.FinalRegisters | remi_debugger/debugger.cpp:29-38 | the register file a run ends in: `RunSteps` over `StepCount` words |
| Debugging.RunStepsPc | remi_debugger/debugger.cpp:33-37 | each step advances `pc` by 4 modulo 2^16, whatever the instruction wrote to it |
| Debugging.FinalPc | remi_debugger/debugger.cpp:24-38 | from `pc` 0 the run ends with `pc` at 4 × the steps run: `4k + 4` for a first `hlt` at k > 0, and 0 when word 0 is `hlt` |
| Debugging.NopsOnlyMovePc | remi_debugger/debugger.cpp:29-38 | a program of `nop`s and `hlt`s changes no register but `pc` |
| Debugging.LoopExit | remi_debugger/debugger.cpp:30 | the loop stops exactly after `StepCount` iterations |
| Debugging.FetchIndex | remi_debugger/debugger.cpp:33 | while `pc` has not wrapped, `pc / 4` is the number of iterations done |
| Debugging.LoopIteration | remi_debugger/debugger.cpp:31-37 | fetching at `pc / 4`, executing and setting `pc` to the old value plus 4 is one more step of `RunSteps` |
| Debugging.Debugger.constructor | remi_debugger/debugger.hpp:24 | the debugger's CPU starts with all registers at zero |
| Debugging.Debugger.FetchExecute | remi_debugger/debugger.cpp:31-37 | one loop body: the word fetched is word n and the registers become those of n + 1 steps |
| Debugging.Debugger.Execute | remi_debugger/debugger.cpp:23-38 | `pc` is zeroed; an empty program or a missing final `hlt` is refused; otherwise the run halts with the registers `FinalRegisters` gives from the zeroed-`pc` start |
| Debugging.StepNopHlt | remi_debugger/debugger.cpp:33-37 | a `nop` or `hlt` step only moves `pc` on by 4 |
| Debugging.StepMovLitReg | remi_debugger/debugger.cpp:33-37 | a `mov_lit_reg v, r` step stores v in r and moves `pc` on by 4 |
| Debugging.StepAddRegReg | remi_debugger/debugger.cpp:33-37 | an `add_reg_reg` step stores the wrapped sum in `ac` and moves `pc` on by 4 |
| Debugging.RunStepsNext | remi_debugger/debugger.cpp:30-37 | one more executable word extends the run by one step |
| Debugging.TestWordsShape | remi_assembler/main.cpp:24-31 | the test words decode to nop, three literal loads into r1, r2, r3 (2, 2, -32734), add r1 r2, hlt |
| Debugging.AddProgramSteps1 | remi_debugger/debugger.cpp:30-37 | after the `nop`, only `pc` has moved, to 4 |
| Debugging.AddProgramSteps2 | remi_debugger/debugger.cpp:30-37 | after step 2, r1 holds the first literal and `pc` is 8 |
| Debugging.AddProgramSteps3 | remi_debugger/debugger.cpp:30-37 | after step 3, r2 holds the second literal and `pc` is 12 |
| Debugging.AddProgramSteps4 | remi_debugger/debugger.cpp:30-37 | after step 4, r3 holds the third literal and `pc` is 16 |
| Debugging.AddProgramSteps5 | remi_debugger/debugger.cpp:30-37 | after step 5, `ac` holds the wrapped sum and `pc` is 20 |
| Debugging.AddProgramSteps6 | remi_debugger/debugger.cpp:30-37 | after the `hlt`, `pc` is 24 and nothing else changed |
| Debugging.AddProgramHalts | remi_debugger/debugger.cpp:30 | the program's only `hlt` is word 5, so the loop runs all six words |
| Debugging.AddProgramRun | remi_debugger/debugger.cpp:23-38 | a run of this program shape from zero: r1, r2, r3 hold the literals, `ac` their wrapped sum of the first two, `pc` 24 |
| Debugging.TestProgramRun | remi_assembler/main.cpp:24-31 | running the test program passes the debugger's checks and ends with r1 = r2 = 2, ac = 4, r3 = 0x8022, pc = 24 |

## Left out

- File I/O: the ROM loader reads and the assembler writes an in-memory byte sequence, not a file stream.
- RomLoader.LoadRom: an image shorter than its header or directory is reported as `Truncated`. The stream-based source does not stop. For an image of 1 to 3 bytes, those bytes are read into the magic array and only its remaining bytes are indeterminate. So such an image whose first byte is not 0x7F always fails the magic check, where the model reports `Truncated`, not `BadMagic`. A directory read that runs past the end of the file fails the stream: the field that crosses the end is read partially and every later field reads as zero. From then on the stream stays failed, so every later `get_region` that is not cached reads nothing and returns zeros.
- RomLoader.LoadedRom.GetRegion: a region of nonzero size running past the end of the image is `Truncated`, and nothing is cached. A region of size 0 is empty and cached wherever its offset lies, as in the source, where the zero-byte read sets no flag. The source allocates a zero-filled buffer of `size` bytes and reads what is left of the file into it. It caches that short, zero-tailed buffer. The short read also fails the stream, after which `seekg` and `read` do nothing. Every later uncached region, even one wholly inside the file, then comes back as all zeros. The model keeps serving other regions from the image correctly.
- RomLoader.BadMagicRejected: a bad magic is an error result. The source asserts, and would carry on reading in a build without asserts.
- Mapper.Bus.FindMapperFor: the lookup returns an index and a fault flag rather than a reference. The remapped-address translation described for `remap_range` is not performed by any of the code, so it is not modelled; remapping only shifts the range of the second-byte check.
- Mapper.Device: devices other than memory are opaque. Only their name, range and remap flag are modelled; their byte reads and writes belong to code outside this model.
- Mapper.MemoryDevice.Write16: as in the code, a faulting 16-bit write leaves its low byte written. The model does not make the write all-or-nothing.
- Debugging.Debugger.Execute: requires the first `hlt` to come before word 0x4000 and every executed word to be runnable (opcode below 4, register arguments below 16). With no `hlt` in the first 0x4000 words, the source's `pc` wraps to 0 after 0x4000 iterations and word 0 is fetched again. The loop at remi_debugger/debugger.cpp:30-38 then never ends. `RunsCleanly` excludes exactly this input, and the loop's termination measure depends on it. A word that is not runnable is undefined behaviour in the source.
- Engine.Execute: an opcode of 4 or more, or a register argument of 16 or more, is undefined behaviour in the source and is a precondition here.
- The `status` struct is empty and has no behaviour. `control_flow::error` is never produced. The debugger ignores the flow each instruction reports.
- The debugger's `step` and everything in the ImGui user interface, the SDL window and event loop, and the display names of opcodes and registers are not part of this model.
- Memory contents start at zero in the model. The source allocates them with `new u8[...]`, which leaves them uninitialised.

## Findings

| source | as written | input that shows it | evidently intended | confidence | as-written member | corrected member |
|---|---|---|---|---|---|---|
| remi_vm/mapper.cpp:99-104 | the low half is allocated with 0x8000 bytes and each bank with 0x7FFF, but `read`/`write` index the low half up to 0x8000 and a bank up to `0xFFFF - 0x8000` = 0x7FFF | address 0x8000 (low-half index 0x8000) or address 0xFFFF (bank index 0x7FFF): each is one past its allocation | a low half of 0x8001 bytes and banks of 0x8000 bytes, so every address has a byte | high; not executed | Mapper.SourceAllocationOverflows | Mapper.Locate |
