/**
 * The ROM writer of the assembler stub: it writes the header, one directory
 * entry per region and the program words, all little-endian, for one
 * hand-encoded test program.
 *
 * `EncodeRom` is the reference byte layout; `WriteRom` produces it with the
 * source's sequential writes and loops. The lemmas read the written bytes
 * back with the loader's `Parse` and `RegionBytes`.
 */
module Assembler {
  import opened Vm
  import opened RomLoader

  /** `region`: a directory entry as the writer knows it. */
  datatype Region = Region(id: u32, offset: u32, size: u16, loadat: u16, bank: u16, reserved: u16)

  const MAJOR_VERSION: u8 := 0
  const MINOR_VERSION: u8 := 1

  /** The two bytes `write(rom, u16)` emits, low byte first. */
  function U16Bytes(v: u16): (b: seq<u8>)
    ensures |b| == 2
  {
    [v % 0x100, v / 0x100]
  }

  /** The four bytes `write(rom, u32)` emits, low byte first. */
  function U32Bytes(v: u32): (b: seq<u8>)
    ensures |b| == 4
  {
    U16Bytes(v % 0x1_0000) + U16Bytes(v / 0x1_0000)
  }

  /** The loader's little-endian u16 read undoes the u16 write. */
  lemma U16BytesRead(v: u16)
    ensures Le16(U16Bytes(v), 0) == v
  {
  }

  /** The loader's little-endian u32 read undoes the u32 write. */
  lemma U32BytesRead(v: u32)
    ensures Le32(U32Bytes(v), 0) == v
  {
    var b := U32Bytes(v);
    U16BytesRead(v % 0x1_0000);
    U16BytesRead(v / 0x1_0000);
    assert Le16(b, 2) == Le16(U16Bytes(v / 0x1_0000), 0);
  }

  /** A u32 program word on the wire is its instruction's four bytes: opcode first, then the arguments. */
  lemma InstrWireBytes(i: Instr)
    ensures U32Bytes(ToU32(i)) == [i.op, i.args[0], i.args[1], i.args[2]]
  {
    var v := ToU32(i);
    var lo := i.op as int + 0x100 * (i.args[0] as int);
    var hi := i.args[1] as int + 0x100 * (i.args[2] as int);
    assert v == lo + 0x1_0000 * hi;
    assert v % 0x1_0000 == lo && v / 0x1_0000 == hi;
  }

  /** One 16-byte directory entry, in the order the loader reads it. */
  function EntryBytes(r: Region): (b: seq<u8>)
    ensures |b| == ENTRY_SIZE
  {
    U32Bytes(r.id) + U32Bytes(r.offset) + U16Bytes(r.size) + U16Bytes(r.loadat) + U16Bytes(r.bank) + U16Bytes(r.reserved)
  }

  /** The directory: the entries one after the other. */
  function DirectoryBytes(rs: seq<Region>): (b: seq<u8>)
    ensures |b| == ENTRY_SIZE * |rs|
  {
    if rs == [] then [] else DirectoryBytes(rs[..|rs| - 1]) + EntryBytes(rs[|rs| - 1])
  }

  /** The payload: each program word as four little-endian bytes. */
  function PayloadBytes(program: seq<u32>): (b: seq<u8>)
    ensures |b| == 4 * |program|
  {
    if program == [] then [] else PayloadBytes(program[..|program| - 1]) + U32Bytes(program[|program| - 1])
  }

  /** The header: magic, major and minor version, and the region count truncated to u16. */
  function HeaderBytes(regionCount: nat): (b: seq<u8>)
    ensures |b| == HEADER_SIZE
  {
    MAGIC + [MAJOR_VERSION, MINOR_VERSION] + U16Bytes(regionCount % 0x1_0000)
  }

  /** The whole ROM image. */
  function EncodeRom(rs: seq<Region>, program: seq<u32>): (b: seq<u8>)
    ensures |b| == EntryStart(|rs|) + 4 * |program|
  {
    HeaderBytes(|rs|) + DirectoryBytes(rs) + PayloadBytes(program)
  }

  /** The region map the directory of `rs` describes, later ids overwriting earlier ones. */
  function RegionMap(rs: seq<Region>): map<u32, RomRegion> {
    if rs == [] then map[]
    else
      var r := rs[|rs| - 1];
      RegionMap(rs[..|rs| - 1])[r.id := RomRegion(r.offset, r.size, r.loadat, r.bank)]
  }

  /** Extending the region list by one entry appends that entry's bytes. */
  lemma DirectoryBytesStep(out: seq<u8>, rs: seq<Region>, i: nat)
    requires i < |rs|
    ensures DirectoryBytes(rs[..i + 1]) == DirectoryBytes(rs[..i]) + EntryBytes(rs[i])
    ensures out + DirectoryBytes(rs[..i + 1]) == out + DirectoryBytes(rs[..i]) + EntryBytes(rs[i])
  {
    assert rs[..i + 1][..i] == rs[..i];
  }

  /** Extending the program by one word appends that word's bytes. */
  lemma PayloadBytesStep(out: seq<u8>, program: seq<u32>, j: nat)
    requires j < |program|
    ensures PayloadBytes(program[..j + 1]) == PayloadBytes(program[..j]) + U32Bytes(program[j])
    ensures out + PayloadBytes(program[..j + 1]) == out + PayloadBytes(program[..j]) + U32Bytes(program[j])
  {
    assert program[..j + 1][..j] == program[..j];
  }

  // ---------------------------------------------------------------------
  // the writer

  /** The header writes: magic, the two version bytes, the region count. */
  method WriteHeader(regionCount: nat) returns (out: seq<u8>)
    ensures out == HeaderBytes(regionCount)
  {
    out := [0x7F, 0x72, 0x31, 0x36];
    out := out + [MAJOR_VERSION];
    out := out + [MINOR_VERSION];
    out := out + U16Bytes(regionCount % 0x1_0000);
  }

  /** The field writes of one directory entry, appended to `out`. */
  method WriteEntry(out: seq<u8>, r: Region) returns (res: seq<u8>)
    ensures res == out + EntryBytes(r)
  {
    res := out + U32Bytes(r.id);
    res := res + U32Bytes(r.offset);
    res := res + U16Bytes(r.size);
    res := res + U16Bytes(r.loadat);
    res := res + U16Bytes(r.bank);
    res := res + U16Bytes(r.reserved);
  }

  /** The directory loop: one entry per region, in order, appended to `out`. */
  method WriteDirectory(out: seq<u8>, rs: seq<Region>) returns (res: seq<u8>)
    ensures res == out + DirectoryBytes(rs)
  {
    res := out;
    var i := 0;
    while i < |rs|
      invariant i <= |rs|
      invariant res == out + DirectoryBytes(rs[..i])
    {
      res := WriteEntry(res, rs[i]);
      DirectoryBytesStep(out, rs, i);
      i := i + 1;
    }
    assert rs[..i] == rs;
  }

  /** The payload loop: each program word as four bytes, appended to `out`. */
  method WritePayload(out: seq<u8>, program: seq<u32>) returns (res: seq<u8>)
    ensures res == out + PayloadBytes(program)
  {
    res := out;
    var j := 0;
    while j < |program|
      invariant j <= |program|
      invariant res == out + PayloadBytes(program[..j])
    {
      res := res + U32Bytes(program[j]);
      PayloadBytesStep(out, program, j);
      j := j + 1;
    }
    assert program[..j] == program;
  }

  /** The sequential writes of the assembler: header, directory, payload. */
  method WriteRom(rs: seq<Region>, program: seq<u32>) returns (out: seq<u8>)
    ensures out == EncodeRom(rs, program)
  {
    out := WriteHeader(|rs|);
    out := WriteDirectory(out, rs);
    out := WritePayload(out, program);
  }

  // ---------------------------------------------------------------------
  // reading the written bytes back

  /** The window of `a` at `at` equals `w`, so the little-endian fields inside it agree. */
  lemma FieldsInWindow(a: seq<u8>, at: nat, w: seq<u8>)
    requires at + |w| <= |a| && a[at .. at + |w|] == w
    ensures forall k :: 0 <= k && k + 2 <= |w| ==> Le16(a, at + k) == Le16(w, k)
    ensures forall k :: 0 <= k && k + 4 <= |w| ==> Le32(a, at + k) == Le32(w, k)
  {
    forall k | 0 <= k && k + 2 <= |w| ensures Le16(a, at + k) == Le16(w, k) {
      assert a[at + k] == w[k] && a[at + k + 1] == w[k + 1];
    }
  }

  /** The fields of an entry sit at the offsets the loader reads them from. */
  lemma EntryFields(r: Region)
    ensures Le32(EntryBytes(r), 0) == r.id && Le32(EntryBytes(r), 4) == r.offset
    ensures Le16(EntryBytes(r), 8) == r.size && Le16(EntryBytes(r), 10) == r.loadat
    ensures Le16(EntryBytes(r), 12) == r.bank && Le16(EntryBytes(r), 14) == r.reserved
  {
    var b := EntryBytes(r);
    U32BytesRead(r.id);
    U32BytesRead(r.offset);
    U16BytesRead(r.size);
    U16BytesRead(r.loadat);
    U16BytesRead(r.bank);
    U16BytesRead(r.reserved);
    FieldsInWindow(b, 0, U32Bytes(r.id));
    FieldsInWindow(b, 4, U32Bytes(r.offset));
    FieldsInWindow(b, 8, U16Bytes(r.size));
    FieldsInWindow(b, 10, U16Bytes(r.loadat));
    FieldsInWindow(b, 12, U16Bytes(r.bank));
    FieldsInWindow(b, 14, U16Bytes(r.reserved));
  }

  /** Entry i of the directory occupies bytes 16i to 16i + 15. */
  lemma {:induction false} DirectoryBytesAt(rs: seq<Region>, i: nat)
    requires i < |rs|
    ensures DirectoryBytes(rs)[ENTRY_SIZE * i .. ENTRY_SIZE * i + ENTRY_SIZE] == EntryBytes(rs[i])
  {
    var prefix := rs[..|rs| - 1];
    if i < |rs| - 1 {
      DirectoryBytesAt(prefix, i);
      assert DirectoryBytes(rs)[..ENTRY_SIZE * |prefix|] == DirectoryBytes(prefix);
    }
  }

  /** Word j of the program occupies payload bytes 4j to 4j + 3. */
  lemma {:induction false} PayloadBytesAt(program: seq<u32>, j: nat)
    requires j < |program|
    ensures PayloadBytes(program)[4 * j .. 4 * j + 4] == U32Bytes(program[j])
  {
    var prefix := program[..|program| - 1];
    if j < |program| - 1 {
      PayloadBytesAt(prefix, j);
      assert PayloadBytes(program)[..4 * |prefix|] == PayloadBytes(prefix);
    }
  }

  /** The written header: magic, version 0.1, and the region count as u16. */
  lemma EncodedHeader(rs: seq<Region>, program: seq<u32>)
    ensures EncodeRom(rs, program)[..4] == MAGIC
    ensures EncodeRom(rs, program)[4] == MAJOR_VERSION && EncodeRom(rs, program)[5] == MINOR_VERSION
    ensures Le16(EncodeRom(rs, program), 6) == |rs| % 0x1_0000
  {
    var out := EncodeRom(rs, program);
    assert out[..HEADER_SIZE] == HeaderBytes(|rs|);
    assert out[..4] == HeaderBytes(|rs|)[..4];
    U16BytesRead(|rs| % 0x1_0000);
    FieldsInWindow(out, 6, U16Bytes(|rs| % 0x1_0000));
  }

  /** Each written directory entry reads back as the region it was written from. */
  lemma EncodedEntry(rs: seq<Region>, program: seq<u32>, i: nat)
    requires i < |rs|
    ensures EntryAt(EncodeRom(rs, program), i) == (rs[i].id, RomRegion(rs[i].offset, rs[i].size, rs[i].loadat, rs[i].bank))
  {
    var out := EncodeRom(rs, program);
    var e := EntryStart(i);
    DirectoryBytesAt(rs, i);
    assert out[HEADER_SIZE .. HEADER_SIZE + ENTRY_SIZE * |rs|] == DirectoryBytes(rs);
    assert out[e .. e + ENTRY_SIZE] == EntryBytes(rs[i]);
    FieldsInWindow(out, e, EntryBytes(rs[i]));
    EntryFields(rs[i]);
  }

  /** The directory read from the first n written entries is the map of the first n regions. */
  lemma {:induction false} EncodedDirectory(rs: seq<Region>, program: seq<u32>, n: nat)
    requires n <= |rs|
    ensures Directory(EncodeRom(rs, program), n) == RegionMap(rs[..n])
  {
    if n > 0 {
      EncodedDirectory(rs, program, n - 1);
      EncodedEntry(rs, program, n - 1);
      assert rs[..n][..n - 1] == rs[..n - 1];
    }
  }

  /** A written ROM with fewer than 2^16 regions passes the header checks and is read as its full directory. */
  lemma EncodedPassesHeader(rs: seq<Region>, program: seq<u32>)
    requires |rs| < 0x1_0000
    ensures EntryStart(|rs|) <= |EncodeRom(rs, program)|
    ensures Parse(EncodeRom(rs, program)) == Ok(Directory(EncodeRom(rs, program), |rs|))
  {
    assert |rs| % 0x1_0000 == |rs|;
    EncodedHeader(rs, program);
  }

  /** Round trip: reading a written ROM gives back the region map of its directory. */
  lemma ParseEncodeRoundTrip(rs: seq<Region>, program: seq<u32>)
    requires |rs| < 0x1_0000
    ensures Parse(EncodeRom(rs, program)) == Ok(RegionMap(rs))
  {
    EncodedPassesHeader(rs, program);
    EncodedDirectory(rs, program, |rs|);
    assert rs[..|rs|] == rs;
  }

  /** A region that ends exactly at the end of the image reads as the image's tail. */
  lemma RegionAtEnd(file: seq<u8>, regions: map<u32, RomRegion>, id: u32)
    requires id in regions && regions[id].romOffset + regions[id].size == |file|
    ensures RegionBytes(file, regions, id) == Ok(file[regions[id].romOffset ..])
  {
    var r := regions[id];
    assert file[r.romOffset .. r.romOffset + r.size] == file[r.romOffset ..];
  }

  /** The payload follows the directory and runs to the end of the image. */
  lemma PayloadAtEnd(rs: seq<Region>, program: seq<u32>)
    ensures EncodeRom(rs, program)[EntryStart(|rs|) ..] == PayloadBytes(program)
  {
  }

  /** Region i, the last entry with its id, is the one the directory of the written ROM keeps. */
  lemma EncodedEntryKept(rs: seq<Region>, program: seq<u32>, i: nat)
    requires i < |rs|
    requires forall j :: i < j < |rs| ==> rs[j].id != rs[i].id
    ensures rs[i].id in Directory(EncodeRom(rs, program), |rs|)
    ensures Directory(EncodeRom(rs, program), |rs|)[rs[i].id] == RomRegion(rs[i].offset, rs[i].size, rs[i].loadat, rs[i].bank)
  {
    var out := EncodeRom(rs, program);
    forall j | i < j < |rs| ensures EntryAt(out, j).0 != EntryAt(out, i).0 {
      EncodedEntry(rs, program, j);
      EncodedEntry(rs, program, i);
    }
    DirectoryLastWins(out, |rs|, i);
    EncodedEntry(rs, program, i);
  }

  /**
   * Round trip of a payload: when region i is the last entry with its id,
   * points just past the directory and covers the whole program, its bytes
   * read back are the program's bytes.
   */
  lemma PayloadRoundTrip(rs: seq<Region>, program: seq<u32>, i: nat)
    requires |rs| < 0x1_0000 && i < |rs|
    requires forall j :: i < j < |rs| ==> rs[j].id != rs[i].id
    requires rs[i].offset == EntryStart(|rs|) && rs[i].size == 4 * |program|
    ensures Parse(EncodeRom(rs, program)).Ok?
    ensures RegionBytes(EncodeRom(rs, program), Parse(EncodeRom(rs, program)).value, rs[i].id) == Ok(PayloadBytes(program))
  {
    var out := EncodeRom(rs, program);
    EncodedPassesHeader(rs, program);
    EncodedEntryKept(rs, program, i);
    PayloadAtEnd(rs, program);
    RegionAtEnd(out, Directory(out, |rs|), rs[i].id);
  }

  // ---------------------------------------------------------------------
  // the test ROM

  /** The hand-encoded test program. */
  const TEST_PROGRAM: seq<Instr> := [
    MakeInstr(Nop),
    MakeWordByte(MovLitReg, Word(2), R1.Index()),
    MakeWordByte(MovLitReg, Word(2), R2.Index()),
    MakeWordByte(MovLitReg, WordFromI16(-32734), R3.Index()),
    MakeInstr(AddRegReg, R1.Index(), R2.Index()),
    MakeInstr(Hlt)
  ]

  /** The test program as the u32 words written to the ROM. */
  const TEST_WORDS: seq<u32> := [
    ToU32(TEST_PROGRAM[0]), ToU32(TEST_PROGRAM[1]), ToU32(TEST_PROGRAM[2]),
    ToU32(TEST_PROGRAM[3]), ToU32(TEST_PROGRAM[4]), ToU32(TEST_PROGRAM[5])
  ]

  /** The main region: id 0, right after the 8-byte header and one 16-byte entry. */
  const MAIN_REGION: Region := Region(0, 24, 4 * |TEST_WORDS|, 0x7F00, 0, 0)

  /** The assembler's output: the test ROM with the main region. */
  method AssembleTestRom() returns (out: seq<u8>)
    ensures out == EncodeRom([MAIN_REGION], TEST_WORDS)
    ensures |out| == 48
  {
    out := WriteRom([MAIN_REGION], TEST_WORDS);
  }

  /**
   * The main region's offset is the header plus one entry, its size is the
   * six instructions times four, and region 0 read back from the test ROM
   * is the 24 program bytes.
   */
  lemma TestRomRoundTrip()
    ensures MAIN_REGION.offset == EntryStart(1) && MAIN_REGION.size == 24
    ensures Parse(EncodeRom([MAIN_REGION], TEST_WORDS)).Ok?
    ensures RegionBytes(EncodeRom([MAIN_REGION], TEST_WORDS), Parse(EncodeRom([MAIN_REGION], TEST_WORDS)).value, 0)
      == Ok(PayloadBytes(TEST_WORDS))
  {
    PayloadRoundTrip([MAIN_REGION], TEST_WORDS, 0);
  }

  /** The test program ends in `hlt`, and its fourth word carries 0x8022 (bytes 0x22 0x80) into r3. */
  lemma TestProgramShape()
    ensures TEST_WORDS[|TEST_WORDS| - 1] == ToU32(MakeInstr(Hlt))
    ensures FromU32(TEST_WORDS[3]) == Instr(MovLitReg.Ordinal(), [0x22 as u8, 0x80, R3.Index() as u8])
    ensures PayloadBytes(TEST_WORDS)[12..16] == [MovLitReg.Ordinal(), 0x22 as u8, 0x80, R3.Index() as u8]
  {
    NegativeLiteralPattern();
    InstrRoundTrip(TEST_PROGRAM[3]);
    InstrWireBytes(TEST_PROGRAM[3]);
    PayloadBytesAt(TEST_WORDS, 3);
  }
}
