/**
 * The ROM reader: a remi16 ROM is an 8-byte header (magic `0x7F 'r' '1' '6'`,
 * major version, minor version, region count as u16), then one 16-byte
 * directory entry per region (id u32, offset u32, size u16, loadat u16,
 * bank u16, reserved u16), then the region payloads; all integers are
 * little-endian. The ROM is read from an in-memory byte sequence.
 *
 * `Parse` is the reference reading of header and directory; `LoadRom`
 * reads the same fields one by one, and `LoadedRom.GetRegion` slices a
 * region out of the image on first request and caches it.
 */
module RomLoader {
  import opened Vm

  const MAGIC: seq<u8> := [0x7F, 0x72, 0x31, 0x36]
  const HEADER_SIZE: nat := 8
  const ENTRY_SIZE: nat := 16

  /** Why a ROM or a region cannot be read. */
  datatype RomError = Truncated | BadMagic | UnknownRegion

  datatype Result<T> = Ok(value: T) | Err(error: RomError)

  /** The little-endian u16 at byte offset `at`. */
  function Le16(b: seq<u8>, at: nat): u16
    requires at + 2 <= |b|
  {
    b[at] as int + 0x100 * (b[at + 1] as int)
  }

  /** The little-endian u32 at byte offset `at`. */
  function Le32(b: seq<u8>, at: nat): u32
    requires at + 4 <= |b|
  {
    Le16(b, at) as int + 0x1_0000 * (Le16(b, at + 2) as int)
  }

  /** A directory entry as kept by the loader: the version-free, reserved-free fields. */
  datatype RomRegion = RomRegion(romOffset: u32, size: u16, loadat: u16, bank: u16)

  /** Byte offset of directory entry i. */
  function EntryStart(i: nat): nat {
    HEADER_SIZE + ENTRY_SIZE * i
  }

  /** Directory entry i: its id and its region; the reserved field (bytes 14-15) is dropped. */
  function EntryAt(b: seq<u8>, i: nat): (u32, RomRegion)
    requires EntryStart(i) + ENTRY_SIZE <= |b|
  {
    var e := EntryStart(i);
    (Le32(b, e), RomRegion(Le32(b, e + 4), Le16(b, e + 8), Le16(b, e + 10), Le16(b, e + 12)))
  }

  /** The region map after reading the first n entries in order; a later id overwrites an earlier one. */
  function Directory(b: seq<u8>, n: nat): map<u32, RomRegion>
    requires EntryStart(n) <= |b|
  {
    if n == 0 then map[]
    else
      var (id, region) := EntryAt(b, n - 1);
      Directory(b, n - 1)[id := region]
  }

  /** Reference reading of a ROM image: its region map, or why it cannot be read. */
  function Parse(b: seq<u8>): Result<map<u32, RomRegion>> {
    if |b| < 4 then Err(Truncated)
    else if b[..4] != MAGIC then Err(BadMagic)
    else if |b| < HEADER_SIZE || |b| < EntryStart(Le16(b, 6)) then Err(Truncated)
    else Ok(Directory(b, Le16(b, 6)))
  }

  /**
   * The bytes of region `id`: `size` bytes of the image starting at its
   * offset. A region of size 0 reads nothing, so it is empty wherever its
   * offset lies.
   */
  function RegionBytes(file: seq<u8>, regions: map<u32, RomRegion>, id: u32): (r: Result<seq<u8>>)
    ensures id !in regions <==> r == Err(UnknownRegion)
    ensures id in regions && regions[id].size == 0 ==> r == Ok([])
    ensures r.Ok? ==> (regions[id].size == 0 || regions[id].romOffset + regions[id].size <= |file|) && |r.value| == regions[id].size
    ensures r.Ok? ==> forall k :: 0 <= k < |r.value| ==> r.value[k] == file[regions[id].romOffset + k]
    ensures r.Err? && id in regions ==>
      r.error == Truncated && regions[id].size > 0 && regions[id].romOffset + regions[id].size > |file|
  {
    if id !in regions then Err(UnknownRegion)
    else
      var region := regions[id];
      if region.size == 0 then Ok([])
      else if region.romOffset + region.size > |file| then Err(Truncated)
      else Ok(file[region.romOffset .. region.romOffset + region.size])
  }

  // ---------------------------------------------------------------------
  // properties of the reading

  /** An image whose first four bytes are not the magic is rejected. */
  lemma BadMagicRejected(b: seq<u8>)
    requires |b| >= 4 && (b[0] != 0x7F || b[1] != 0x72 || b[2] != 0x31 || b[3] != 0x36)
    ensures Parse(b) == Err(BadMagic)
  {
  }

  /** An id is in the directory exactly when some entry carries it. */
  lemma {:induction false} DirectoryKeys(b: seq<u8>, n: nat, id: u32)
    requires EntryStart(n) <= |b|
    ensures id in Directory(b, n) <==> exists i :: 0 <= i < n && EntryAt(b, i).0 == id
  {
    if n > 0 {
      DirectoryKeys(b, n - 1, id);
      if id in Directory(b, n) && EntryAt(b, n - 1).0 != id {
        var i :| 0 <= i < n - 1 && EntryAt(b, i).0 == id;
        assert 0 <= i < n && EntryAt(b, i).0 == id;
      }
      if exists i :: 0 <= i < n && EntryAt(b, i).0 == id {
        var i :| 0 <= i < n && EntryAt(b, i).0 == id;
        if i < n - 1 {
          assert id in Directory(b, n - 1);
        }
      }
    }
  }

  /** When several entries share an id, the last of them is the one kept. */
  lemma {:induction false} DirectoryLastWins(b: seq<u8>, n: nat, i: nat)
    requires EntryStart(n) <= |b| && i < n
    requires forall j :: i < j < n ==> EntryAt(b, j).0 != EntryAt(b, i).0
    ensures EntryAt(b, i).0 in Directory(b, n)
    ensures Directory(b, n)[EntryAt(b, i).0] == EntryAt(b, i).1
  {
    if i < n - 1 {
      DirectoryLastWins(b, n - 1, i);
    }
  }

  /** The directory depends on nothing but the decoded entries. */
  lemma {:induction false} DirectoryDependsOnEntries(a: seq<u8>, b: seq<u8>, n: nat)
    requires EntryStart(n) <= |a| && EntryStart(n) <= |b|
    requires forall j :: 0 <= j < n ==> EntryAt(a, j) == EntryAt(b, j)
    ensures Directory(a, n) == Directory(b, n)
  {
    if n > 0 {
      DirectoryDependsOnEntries(a, b, n - 1);
    }
  }

  /** The two version bytes are read but not kept: changing them changes nothing. */
  lemma VersionBytesIgnored(b: seq<u8>, major: u8, minor: u8)
    requires |b| >= HEADER_SIZE
    ensures Parse(b[4 := major][5 := minor]) == Parse(b)
  {
    var c := b[4 := major][5 := minor];
    assert c[..4] == b[..4];
    assert Le16(c, 6) == Le16(b, 6);
    var n := Le16(b, 6);
    if EntryStart(n) <= |b| {
      forall j | 0 <= j < n ensures EntryAt(c, j) == EntryAt(b, j) {
      }
      DirectoryDependsOnEntries(c, b, n);
    }
  }

  /** The reserved field of an entry is read but not kept: changing it changes nothing. */
  lemma ReservedFieldIgnored(b: seq<u8>, i: nat, x: u8, y: u8)
    requires |b| >= HEADER_SIZE && i < Le16(b, 6) && EntryStart(i) + ENTRY_SIZE <= |b|
    ensures Parse(b[EntryStart(i) + 14 := x][EntryStart(i) + 15 := y]) == Parse(b)
  {
    var c := b[EntryStart(i) + 14 := x][EntryStart(i) + 15 := y];
    assert c[..4] == b[..4];
    assert Le16(c, 6) == Le16(b, 6);
    var n := Le16(b, 6);
    if EntryStart(n) <= |b| {
      forall j | 0 <= j < n ensures EntryAt(c, j) == EntryAt(b, j) {
        var e := EntryStart(j);
        if j < i {
          assert e + 16 <= EntryStart(i);
        } else if j > i {
          assert EntryStart(i) + 16 <= e;
        }
      }
      DirectoryDependsOnEntries(c, b, n);
    }
  }

  // ---------------------------------------------------------------------
  // the loader

  /**
   * The directory loop of `load_rom_from_file`: reads `count` entries field
   * by field, each into the region map, and reports an entry that runs
   * past the end of the image.
   */
  method ReadDirectory(file: seq<u8>, count: u16) returns (r: Result<map<u32, RomRegion>>)
    requires |file| >= HEADER_SIZE
    ensures EntryStart(count) <= |file| ==> r == Ok(Directory(file, count))
    ensures EntryStart(count) > |file| ==> r == Err(Truncated)
  {
    var regions: map<u32, RomRegion> := map[];
    var i: nat := 0;
    while i < count
      invariant i <= count
      invariant EntryStart(i) <= |file|
      invariant regions == Directory(file, i)
    {
      var e := EntryStart(i);
      if e + ENTRY_SIZE > |file| {
        return Err(Truncated);
      }
      var id := Le32(file, e);
      var offset := Le32(file, e + 4);
      var size := Le16(file, e + 8);
      var loadat := Le16(file, e + 10);
      var bank := Le16(file, e + 12);
      var reserved := Le16(file, e + 14);
      regions := regions[id := RomRegion(offset, size, loadat, bank)];
      i := i + 1;
    }
    return Ok(regions);
  }

  /** `loaded_rom`: the image, its region map, and the regions read so far. */
  class LoadedRom {
    const file: seq<u8>
    const regions: map<u32, RomRegion>
    var loadedRegionData: map<u32, seq<u8>>

    /** Every cached region holds exactly the bytes its directory entry names. */
    ghost predicate Valid()
      reads this
    {
      forall id :: id in loadedRegionData ==> RegionBytes(file, regions, id) == Ok(loadedRegionData[id])
    }

    constructor (file: seq<u8>, regions: map<u32, RomRegion>)
      ensures Valid()
      ensures this.file == file && this.regions == regions && loadedRegionData == map[]
    {
      this.file := file;
      this.regions := regions;
      loadedRegionData := map[];
    }

    /**
     * `get_region`: the bytes of region `id`, read on the first request and
     * afterwards served from the cache without reading again; an id the
     * directory lacks, or a region of nonzero size running past the end of the
     * image, is an error.
     */
    method GetRegion(id: u32) returns (r: Result<seq<u8>>)
      requires Valid()
      modifies this
      ensures Valid()
      ensures r == RegionBytes(file, regions, id)
      ensures id in old(loadedRegionData) ==> loadedRegionData == old(loadedRegionData)
      ensures loadedRegionData == if r.Ok? then old(loadedRegionData)[id := r.value] else old(loadedRegionData)
    {
      if id !in loadedRegionData {
        if id !in regions {
          return Err(UnknownRegion);
        }
        var region := regions[id];
        if region.size > 0 && region.romOffset + region.size > |file| {
          return Err(Truncated);
        }
        var bytes := if region.size == 0 then [] else file[region.romOffset .. region.romOffset + region.size];
        loadedRegionData := loadedRegionData[id := bytes];
        return Ok(loadedRegionData[id]);
      } else {
        return Ok(loadedRegionData[id]);
      }
    }
  }

  /**
   * `load_rom_from_file`, over an in-memory image: checks the magic, reads
   * and drops the two version bytes, reads the region count and the
   * directory. The result agrees with `Parse` and has an empty cache.
   */
  method LoadRom(file: seq<u8>) returns (r: Result<LoadedRom>)
    ensures Parse(file).Err? <==> r.Err?
    ensures r.Err? ==> r.error == Parse(file).error
    ensures r.Ok? ==> fresh(r.value) && r.value.Valid() && r.value.file == file
    ensures r.Ok? ==> r.value.regions == Parse(file).value && r.value.loadedRegionData == map[]
  {
    if |file| < 4 {
      return Err(Truncated);
    }
    if file[..4] != MAGIC {
      return Err(BadMagic);
    }
    if |file| < HEADER_SIZE {
      return Err(Truncated);
    }
    var majorVersion := file[4];
    var minorVersion := file[5];
    var regionCount := Le16(file, 6);
    var directory := ReadDirectory(file, regionCount);
    if directory.Err? {
      return Err(directory.error);
    }
    var rom := new LoadedRom(file, directory.value);
    return Ok(rom);
  }
}
