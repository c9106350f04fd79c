/**
 * A GUID partition table: the checksum, the table as the image builder lays it out, and the reader
 * that looks a partition up in it.
 */
module Gpt {
  import opened Basics
  import opened Journal

  const HEADER_BYTES: nat := 92
  const SIGNATURE: seq<byte> := [0x45, 0x46, 0x49, 0x20, 0x50, 0x41, 0x52, 0x54]

  type Guid = g: seq<byte> | |g| == 16 witness Repeat(16, 0 as byte)

  // ----- the checksum -----

  function CrcBit(crc: bv32): bv32 {
    var mask: bv32 := if crc & 1 == 1 then 0xffff_ffff else 0;
    (crc >> 1) ^ (0xedb8_8320 & mask)
  }

  function CrcBits(crc: bv32, n: nat): bv32
    decreases n
  {
    if n == 0 then crc else CrcBits(CrcBit(crc), n - 1)
  }

  function Mixed(crc: bv32, b: byte): bv32 {
    crc ^ (b as bv8 as bv32)
  }

  function CrcByte(crc: bv32, b: byte): bv32 {
    CrcBits(Mixed(crc, b), 8)
  }

  /** The register after these bytes. */
  function CrcFrom(crc: bv32, data: seq<byte>): bv32 {
    if data == [] then crc else CrcByte(CrcFrom(crc, data[..|data| - 1]), data[|data| - 1])
  }

  function LowByte(word: bv32): byte {
    var low: bv8 := (word & 0xff) as bv8;
    low as int
  }

  /** The bytes of a word, the least significant first. */
  function WordBytes(word: bv32): (bytes: seq<byte>)
    ensures |bytes| == 4
  {
    [LowByte(word), LowByte(word >> 8), LowByte(word >> 16), LowByte(word >> 24)]
  }

  /** The number that the inverted register stands for. */
  function Inverted(crc: bv32): u32 {
    Pow2At31();
    LeValue(WordBytes(!crc))
  }

  function Crc(data: seq<byte>): u32 {
    Inverted(CrcFrom(0xffff_ffff, data))
  }

  lemma {:induction false} CrcFromConcat(crc: bv32, a: seq<byte>, b: seq<byte>)
    ensures CrcFrom(crc, a + b) == CrcFrom(CrcFrom(crc, a), b)
    decreases |b|
  {
    hide CrcByte;
    if b == [] {
      assert a + b == a;
    } else {
      var last := |b| - 1;
      CrcFromConcat(crc, a, b[..last]);
      assert (a + b)[..|a + b| - 1] == a + b[..last];
    }
  }

  // What a register makes of the bytes of its own inverse, one after another.

  lemma OwnFirstByte(r: bv32)
    ensures CrcBits(r ^ (!r & 0xff), 8) == 0x2d02_ef8d ^ (r >> 8)
  {
  }

  lemma OwnSecondByte(r: bv32)
    ensures CrcBits(0x2d02_ef8d ^ (r >> 8) ^ ((!r >> 8) & 0xff), 8) == 0xbe26_12ff ^ (r >> 16)
  {
  }

  lemma OwnThirdByte(r: bv32)
    ensures CrcBits(0xbe26_12ff ^ (r >> 16) ^ ((!r >> 16) & 0xff), 8) == 0x00be_2612 ^ (r >> 24)
  {
  }

  lemma OwnLastByte(r: bv32)
    ensures CrcBits(0x00be_2612 ^ (r >> 24) ^ ((!r >> 24) & 0xff), 8) == 0xdebb_20e3
  {
  }

  lemma NumberReadsBack(low: bv8)
    ensures (low as int) as bv8 == low
  {
  }

  lemma MixedWithByte(crc: bv32, word: bv32)
    ensures Mixed(crc, LowByte(word)) == crc ^ (word & 0xff)
  {
    NumberReadsBack((word & 0xff) as bv8);
  }

  lemma FourBytes(crc: bv32, b: seq<byte>)
    requires |b| == 4
    ensures CrcFrom(crc, b) == CrcByte(CrcByte(CrcByte(CrcByte(crc, b[0]), b[1]), b[2]), b[3])
  {
    hide CrcByte;
    CrcFromNext(crc, b, 0);
    CrcFromNext(crc, b, 1);
    CrcFromNext(crc, b, 2);
    CrcFromNext(crc, b, 3);
    assert b[..4] == b;
  }

  // The register after one, two and three of those bytes.

  function AfterOne(r: bv32): bv32 {
    0x2d02_ef8d ^ (r >> 8)
  }

  function AfterTwo(r: bv32): bv32 {
    0xbe26_12ff ^ (r >> 16)
  }

  function AfterThree(r: bv32): bv32 {
    0x00be_2612 ^ (r >> 24)
  }

  lemma FirstFed(r: bv32)
    ensures CrcByte(r, WordBytes(!r)[0]) == AfterOne(r)
  {
    hide CrcBits, Mixed, LowByte;
    MixedWithByte(r, !r);
    OwnFirstByte(r);
  }

  lemma SecondFed(r: bv32)
    ensures CrcByte(AfterOne(r), WordBytes(!r)[1]) == AfterTwo(r)
  {
    hide CrcBits, Mixed, LowByte;
    MixedWithByte(0x2d02_ef8d ^ (r >> 8), !r >> 8);
    OwnSecondByte(r);
  }

  lemma ThirdFed(r: bv32)
    ensures CrcByte(AfterTwo(r), WordBytes(!r)[2]) == AfterThree(r)
  {
    hide CrcBits, Mixed, LowByte;
    MixedWithByte(0xbe26_12ff ^ (r >> 16), !r >> 16);
    OwnThirdByte(r);
  }

  lemma LastFed(r: bv32)
    ensures CrcByte(AfterThree(r), WordBytes(!r)[3]) == 0xdebb_20e3
  {
    hide CrcBits, Mixed, LowByte;
    MixedWithByte(0x00be_2612 ^ (r >> 24), !r >> 24);
    OwnLastByte(r);
  }

  lemma OwnBytes(r: bv32)
    ensures CrcFrom(r, WordBytes(!r)) == 0xdebb_20e3
  {
    hide CrcByte, CrcFrom, WordBytes, AfterOne, AfterTwo, AfterThree;
    FourBytes(r, WordBytes(!r));
    FirstFed(r);
    SecondFed(r);
    ThirdFed(r);
    LastFed(r);
  }

  /** Data followed by its own checksum leaves one register behind, whatever the data. */
  lemma ChecksumChecks(data: seq<byte>)
    ensures CrcFrom(0xffff_ffff, data + LeBytes(Crc(data), 4)) == 0xdebb_20e3
  {
    hide CrcFrom, LeBytes, LeValue, WordBytes;
    var r := CrcFrom(0xffff_ffff, data);
    LeBytesOfValue(WordBytes(!r));
    CrcFromConcat(0xffff_ffff, data, WordBytes(!r));
    OwnBytes(r);
  }

  /** One zero byte through the fresh register, as the checksum of IEEE 802.3 has it. */
  lemma FirstZeroByte()
    ensures CrcByte(0xffff_ffff, 0) == 0x2dfd_1072
  {
  }

  /** The streaming checksum. Whatever was fed to it, in whatever pieces, it stands for the whole. */
  class Crc32 {
    var value: bv32
    ghost var fed: seq<byte>

    ghost predicate Valid()
      reads this
    {
      value == CrcFrom(0xffff_ffff, fed)
    }

    constructor ()
      ensures Valid() && fed == []
    {
      value, fed := 0xffff_ffff, [];
    }

    method Update(data: seq<byte>)
      requires Valid()
      modifies this
      ensures Valid() && fed == old(fed) + data
    {
      hide CrcFrom, CrcByte;
      CrcFromNone(value, data);
      for i := 0 to |data|
        invariant value == CrcFrom(old(value), data[..i]) && fed == old(fed)
      {
        CrcFromNext(old(value), data, i);
        Feed(data[i]);
      }
      assert data[..|data|] == data;
      CrcFromConcat(0xffff_ffff, fed, data);
      fed := fed + data;
    }

    method Feed(b: byte)
      modifies this`value
      ensures value == CrcByte(old(value), b)
    {
      hide CrcBit, Mixed;
      value := Mixed(value, b);
      ghost var mixed := value;
      for bit := 0 to 8
        invariant CrcBits(mixed, 8) == CrcBits(value, 8 - bit)
      {
        value := CrcBit(value);
      }
    }

    function Finish(): (crc: u32)
      requires Valid()
      reads this
      ensures crc == Crc(fed)
    {
      Inverted(value)
    }
  }

  lemma CrcFromNone(crc: bv32, data: seq<byte>)
    ensures CrcFrom(crc, data[..0]) == crc
  {
  }

  lemma CrcFromNext(crc: bv32, data: seq<byte>, i: nat)
    requires i < |data|
    ensures CrcFrom(crc, data[..i + 1]) == CrcByte(CrcFrom(crc, data[..i]), data[i])
  {
    assert data[..i + 1][..i] == data[..i];
  }

  // ----- reading a table -----

  datatype Partition = Partition(typeGuid: Guid, first: nat, last: nat)

  /** `Panics` is where the reader would index past its sector buffer. */
  datatype GptFault = NoTable | Corrupt | Refused | Panics

  datatype Header = Header(entriesLba: nat, entryCount: nat, entrySize: nat, entriesCrc: nat)

  function Number(bytes: seq<byte>, at: nat, width: nat): nat
    requires at + width <= |bytes|
  {
    LeValue(bytes[at..at + width])
  }

  /** A header that carries its signature, its own checksum, and a sane entry array. */
  function ParseHeader(sector: Sector): Option<Header> {
    if sector[0..8] != SIGNATURE then None
    else
      var size := Number(sector, 12, 4);
      if size < HEADER_BYTES || size > 512 then None
      else if Crc(sector[..16] + [0, 0, 0, 0] + sector[20..size]) != Number(sector, 16, 4) then None
      else
        var (entrySize, entryCount) := (Number(sector, 84, 4), Number(sector, 80, 4));
        if entrySize < 128 || entrySize > 4096 || entryCount > 512 then None
        else Some(Header(Number(sector, 72, 8), entryCount, entrySize, Number(sector, 88, 4)))
  }

  /**
   * A header is accepted exactly with its signature, a size it has room for, its own checksum over that
   * size with the field zeroed, entries of a size the reader can take, and not too many of them.
   */
  lemma HeaderAcceptedIff(sector: Sector)
    ensures var size := Number(sector, 12, 4);
            ParseHeader(sector).Some? <==>
              && (forall i :: 0 <= i < 8 ==> sector[i] == "EFI PART"[i] as int)
              && 92 <= size <= 512
              && Crc(sector[..16] + [0, 0, 0, 0] + sector[20..size]) == Number(sector, 16, 4)
              && 128 <= Number(sector, 84, 4) <= 4096 && Number(sector, 80, 4) <= 512
  {
    hide Crc, Number;
    assert sector[0..8] == SIGNATURE <==> forall i :: 0 <= i < 8 ==> sector[0..8][i] == SIGNATURE[i];
    assert forall i :: 0 <= i < 8 ==> SIGNATURE[i] == "EFI PART"[i] as int;
  }

  function ParseAt(image: Image, lba: nat): Option<Header> {
    if lba < |image| then ParseHeader(image[lba]) else None
  }

  /** The primary header, or the backup at the far end. */
  function HeaderIn(image: Image): Option<Header> {
    var primary := ParseAt(image, 1);
    if primary.Some? || |image| <= 1 then primary else ParseHeader(image[|image| - 1])
  }

  /** `n` sectors end to end. */
  function Run(image: Image, lba: nat, n: nat): (r: seq<byte>)
    requires lba + n <= |image|
    ensures |r| == 512 * n
  {
    if n == 0 then [] else Run(image, lba, n - 1) + image[lba + n - 1]
  }

  function SectorsFor(bytes: nat): nat {
    (bytes + 511) / 512
  }

  function CheckEntry(entry: seq<byte>, total: nat): Result<Partition, GptFault>
    requires |entry| == 128
  {
    var (first, last) := (Number(entry, 32, 8), Number(entry, 40, 8));
    if last < first || last >= total then Err(Corrupt) else Ok(Partition(entry[0..16], first, last))
  }

  /** The first 128 bytes of an entry, which must not straddle a sector. */
  function EntryAt(image: Image, h: Header, index: nat): (r: Result<seq<byte>, GptFault>)
    ensures r.Ok? ==> |r.value| == 128
  {
    var at := index * h.entrySize;
    var (lba, within) := (h.entriesLba + at / 512, at % 512);
    if lba >= |image| then Err(Refused)
    else if within + 128 > 512 then Err(Panics)
    else Ok(image[lba][within..within + 128])
  }

  function Search(image: Image, h: Header, guid: Guid, index: nat): Result<Partition, GptFault>
    requires index <= h.entryCount
    decreases h.entryCount - index
  {
    if index == h.entryCount then Err(NoTable)
    else
      var entry :- EntryAt(image, h, index);
      if entry[0..16] == guid then CheckEntry(entry, |image|) else Search(image, h, guid, index + 1)
  }

  /** The entry array as far as `n` sectors carry it. */
  function ArrayRead(image: Image, lba: nat, n: nat, bytes: nat): seq<byte>
    requires n > 0 ==> lba + n <= |image|
  {
    if n == 0 then [] else if 512 * n < bytes then Run(image, lba, n) else Run(image, lba, n)[..bytes]
  }

  function FindWith(image: Image, h: Header, guid: Guid): Result<Partition, GptFault> {
    var bytes := h.entryCount * h.entrySize;
    var n := SectorsFor(bytes);
    if n > 0 && h.entriesLba + n > |image| then Err(Refused)
    else if Crc(ArrayRead(image, h.entriesLba, n, bytes)) != h.entriesCrc then Err(Corrupt)
    else Search(image, h, guid, 0)
  }

  /** The first partition of a type, from a table that checks out. */
  function FindIn(image: Image, guid: Guid): Result<Partition, GptFault> {
    var h := HeaderIn(image);
    if h.None? then Err(NoTable) else FindWith(image, h.value, guid)
  }

  lemma ArrayReadNext(image: Image, lba: nat, n: nat, bytes: nat)
    requires lba + n < |image| && 512 * n <= bytes
    ensures var take := if bytes - 512 * n < 512 then bytes - 512 * n else 512;
            ArrayRead(image, lba, n + 1, bytes) == ArrayRead(image, lba, n, bytes) + image[lba + n][..take]
  {
    if 512 * n == bytes && n > 0 {
      assert Run(image, lba, n)[..bytes] == Run(image, lba, n);
    }
  }

  predicate NothingRefused(disk: Disk, since: nat)
    reads disk
  {
    forall k :: since <= k < disk.operations ==> disk.accepts(k)
  }

  method ReadHeader(disk: Disk, lba: nat) returns (h: Option<Header>)
    modifies disk`operations
    ensures disk.operations == old(disk.operations) + 1
    ensures h == if disk.accepts(old(disk.operations)) then ParseAt(disk.sectors, lba) else None
  {
    hide ParseHeader;
    var sector := disk.Read(lba);
    if sector.None? {
      return None;
    }
    return ParseHeader(sector.value);
  }

  /** The checksum of the whole entry array, a sector at a time. */
  method ChecksumArray(disk: Disk, lba: nat, n: nat, bytes: nat) returns (crc: Option<u32>)
    requires n == SectorsFor(bytes)
    modifies disk`operations
    ensures old(disk.operations) <= disk.operations
    ensures crc.Some? ==>
              (n > 0 ==> lba + n <= |disk.sectors|) && crc.value == Crc(ArrayRead(disk.sectors, lba, n, bytes))
    ensures crc.None? && NothingRefused(disk, old(disk.operations)) ==> n > 0 && lba + n > |disk.sectors|
  {
    hide Crc, CrcFrom, ArrayRead;
    var checksum := new Crc32();
    NothingRead(disk.sectors, lba, bytes);
    for index := 0 to n
      invariant checksum.Valid() && fresh(checksum)
      invariant old(disk.operations) <= disk.operations
      invariant index > 0 ==> lba + index <= |disk.sectors|
      invariant checksum.fed == ArrayRead(disk.sectors, lba, index, bytes)
    {
      var sector := disk.Read(lba + index);
      if sector.None? {
        return None;
      }
      var remaining := bytes - index * 512;
      ArrayReadNext(disk.sectors, lba, index, bytes);
      checksum.Update(sector.value[..if remaining < 512 then remaining else 512]);
    }
    return Some(checksum.Finish());
  }

  lemma NothingRead(image: Image, lba: nat, bytes: nat)
    ensures ArrayRead(image, lba, 0, bytes) == []
  {
  }

  method ReadEntry(disk: Disk, h: Header, index: nat) returns (r: Result<seq<byte>, GptFault>)
    modifies disk`operations
    ensures disk.operations == old(disk.operations) + 1
    ensures r == if disk.accepts(old(disk.operations)) then EntryAt(disk.sectors, h, index) else Err(Refused)
  {
    var at := index * h.entrySize;
    var within := at % 512;
    var sector := disk.Read(h.entriesLba + at / 512);
    if sector.None? {
      return Err(Refused);
    }
    if within + 128 > 512 {
      return Err(Panics);
    }
    return Ok(sector.value[within..within + 128]);
  }

  method FindEntry(disk: Disk, h: Header, guid: Guid) returns (r: Result<Partition, GptFault>)
    modifies disk`operations
    ensures old(disk.operations) <= disk.operations
    ensures r == Search(disk.sectors, h, guid, 0) || (r == Err(Refused) && !NothingRefused(disk, old(disk.operations)))
  {
    hide CheckEntry, EntryAt;
    for index := 0 to h.entryCount
      invariant old(disk.operations) <= disk.operations
      invariant Search(disk.sectors, h, guid, 0) == Search(disk.sectors, h, guid, index)
    {
      var entry := ReadEntry(disk, h, index);
      if entry.Err? {
        assert disk.accepts(disk.operations - 1) ==> entry == EntryAt(disk.sectors, h, index);
        return Err(entry.error);
      }
      if entry.value[0..16] == guid {
        return CheckEntry(entry.value, |disk.sectors|);
      }
    }
    return Err(NoTable);
  }

  /** Find the first partition of a type: the primary table, then the backup. */
  method Find(disk: Disk, guid: Guid) returns (r: Result<Partition, GptFault>)
    modifies disk`operations
    ensures NothingRefused(disk, old(disk.operations)) ==> r == FindIn(disk.sectors, guid)
    ensures r.Ok? ==> r.value.typeGuid == guid && r.value.first <= r.value.last < |disk.sectors|
  {
    hide Crc, ArrayRead, Search, ParseHeader;
    var header := ReadHeader(disk, 1);
    if header.None? && |disk.sectors| > 1 {
      header := ReadHeader(disk, |disk.sectors| - 1);
    }
    if header.None? {
      assert NothingRefused(disk, old(disk.operations)) ==> disk.accepts(old(disk.operations));
      return Err(NoTable);
    }
    var h := header.value;
    var bytes := h.entryCount * h.entrySize;
    label Counted:
    var crc := ChecksumArray(disk, h.entriesLba, SectorsFor(bytes), bytes);
    if crc.None? {
      return Err(Refused);
    }
    if crc.value != h.entriesCrc {
      return Err(Corrupt);
    }
    SearchFinds(disk.sectors, h, guid, 0);
    r := FindEntry(disk, h, guid);
  }

  lemma {:induction false} SearchFinds(image: Image, h: Header, guid: Guid, index: nat)
    requires index <= h.entryCount
    ensures var r := Search(image, h, guid, index); r.Ok? ==>
              r.value.typeGuid == guid && r.value.first <= r.value.last < |image|
    decreases h.entryCount - index
  {
    hide Number, EntryAt;
    if index < h.entryCount {
      SearchFinds(image, h, guid, index + 1);
    }
  }

  function SectorCount(p: Partition): nat {
    (if p.first <= p.last then p.last - p.first else 0) + 1
  }

  /** Part of a disk, as if it were a disk of its own. */
  class Window {
    const storage: Disk
    const first: nat
    const count: nat

    constructor (storage: Disk, partition: Partition)
      ensures this.storage == storage && first == partition.first && count == SectorCount(partition)
    {
      this.storage := storage;
      first, count := partition.first, SectorCount(partition);
    }

    /** The sectors seen through the window. */
    ghost function View(): Image
      requires first + count <= |storage.sectors|
      reads storage
    {
      storage.sectors[first..first + count]
    }

    /** A read past the end is refused, not clamped to a neighbour's bytes. */
    method Read(sector: nat) returns (r: Option<Sector>)
      requires first + count <= |storage.sectors|
      modifies storage`operations
      ensures sector >= count ==> r == None && storage.operations == old(storage.operations)
      ensures sector < count ==> r == if storage.accepts(old(storage.operations)) then Some(View()[sector]) else None
    {
      if sector >= count {
        return None;
      }
      r := storage.Read(first + sector);
    }

    /** A write changes the view like a disk of its own, and nothing outside the partition. */
    method Write(sector: nat, data: Sector) returns (ok: bool)
      requires first + count <= |storage.sectors|
      modifies storage
      ensures |storage.sectors| == |old(storage.sectors)|
      ensures ok <==> sector < count && storage.accepts(old(storage.operations))
      ensures View() == if ok then old(View())[sector := data] else old(View())
      ensures forall k :: 0 <= k < |storage.sectors| && !(first <= k < first + count) ==>
                storage.sectors[k] == old(storage.sectors)[k]
    {
      if sector >= count {
        return false;
      }
      ok := storage.Write(first + sector, data);
    }
  }

  /** A partition the reader found lies inside the disk, so its window does. */
  lemma FoundFits(image: Image, guid: Guid)
    requires FindIn(image, guid).Ok?
    ensures var p := FindIn(image, guid).value; p.first + SectorCount(p) <= |image| && p.typeGuid == guid
  {
    hide ParseHeader, Crc, ArrayRead, Search;
    SearchFinds(image, HeaderIn(image).value, guid, 0);
  }
}
