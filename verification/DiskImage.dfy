/**
 * The distributable image: the partition table as the builder writes it, and the proof that the
 * reader finds in it what was put there.
 */
module DiskImage {
  import opened Basics
  import opened Journal
  import opened Gpt

  const ENTRY_COUNT: nat := 128
  const ENTRY_BYTES: nat := 128

  /** A partition as the builder asks for it; `name` in UTF-16 units. */
  datatype PartitionSpec = PartitionSpec(typeGuid: Guid, first: u64, last: u64, name: seq<nat>)

  // ----- writing into a flat image -----

  function WriteAt(bytes: seq<byte>, offset: nat, data: seq<byte>): (r: seq<byte>)
    requires offset + |data| <= |bytes|
    ensures |r| == |bytes|
  {
    bytes[..offset] + data + bytes[offset + |data|..]
  }

  lemma WrittenHolds(bytes: seq<byte>, offset: nat, data: seq<byte>)
    requires offset + |data| <= |bytes|
    ensures Holds(WriteAt(bytes, offset, data), offset, data)
  {
  }

  lemma WrittenElsewhere(bytes: seq<byte>, offset: nat, data: seq<byte>, at: nat, part: seq<byte>)
    requires offset + |data| <= |bytes| && Holds(bytes, at, part)
    requires at + |part| <= offset || offset + |data| <= at
    ensures Holds(WriteAt(bytes, offset, data), at, part)
  {
    var after := WriteAt(bytes, offset, data);
    if at + |part| <= offset {
      assert after[at..at + |part|] == bytes[at..at + |part|];
    } else {
      assert after[at..at + |part|] == bytes[at..at + |part|];
    }
  }

  /** The image as the sectors a device would serve. */
  function SectorAt(bytes: seq<byte>, k: nat): Sector
    requires (k + 1) * 512 <= |bytes|
  {
    bytes[k * 512..(k + 1) * 512]
  }

  function Sectors(bytes: seq<byte>): (image: Image)
    ensures |image| == |bytes| / 512
  {
    seq(|bytes| / 512, k requires 0 <= k < |bytes| / 512 => SectorAt(bytes, k))
  }

  // ----- the table -----

  const GUID_STEM: seq<byte> := [0x69, 0x33, 0x6d, 0x6c, 0x4f, 0x53, 0x2d, 0x64, 0x69, 0x73, 0x6b, 0x2d, 0x67, 0x75,
    0x69]

  function StableGuid(seed: byte): Guid {
    GUID_STEM + [seed]
  }

  function NameBytes(units: seq<nat>, n: nat): (r: seq<byte>)
    ensures |r| == 2 * n
  {
    if n == 0 then []
      else LeBytes(if |units| > 0 then units[0] else 0, 2) + NameBytes(if |units| > 0 then units[1..] else [], n - 1)
  }

  /** One entry: type, own GUID, range, no attributes, a name of up to 36 units. */
  function EntryBytes(p: PartitionSpec, index: nat): (r: seq<byte>)
    ensures |r| == 128
  {
    p.typeGuid + StableGuid((index + 1) % 0x100) + LeBytes(p.first, 8) + LeBytes(p.last, 8) + Repeat(8, 0 as byte) +
      NameBytes(p.name, 36)
  }

  function EntryOrNone(parts: seq<PartitionSpec>, index: nat): (r: seq<byte>)
    ensures |r| == 128
  {
    if index < |parts| then EntryBytes(parts[index], index) else Repeat(128, 0 as byte)
  }

  /** The first `n` entries of the array. */
  function EntryArray(parts: seq<PartitionSpec>, n: nat): (r: seq<byte>)
    ensures |r| == 128 * n
  {
    if n == 0 then [] else EntryArray(parts, n - 1) + EntryOrNone(parts, n - 1)
  }

  lemma {:induction false} ArrayHoldsEntry(parts: seq<PartitionSpec>, n: nat, index: nat)
    requires index < n
    ensures EntryArray(parts, n)[128 * index..128 * index + 128] == EntryOrNone(parts, index)
  {
    hide EntryOrNone;
    var before := EntryArray(parts, n - 1);
    if index < n - 1 {
      ArrayHoldsEntry(parts, n - 1, index);
      assert EntryArray(parts, n)[128 * index..128 * index + 128] == before[128 * index..128 * index + 128];
    }
  }

  function HeaderHead(): (r: seq<byte>)
    ensures |r| == 16
  {
    SIGNATURE + LeBytes(0x1_0000, 4) + LeBytes(92, 4)
  }

  /** Everything after the checksum field. */
  function HeaderRest(current: u64, backup: u64, lastUsable: u64, entriesAt: u64, entriesCrc: u32): (r: seq<byte>)
    ensures |r| == 72
  {
    LeBytes(0, 4) + LeBytes(current, 8) + LeBytes(backup, 8) + LeBytes(34, 8) + LeBytes(lastUsable, 8) + StableGuid(0)
      + LeBytes(entriesAt, 8) + LeBytes(128, 4) + LeBytes(128, 4) + LeBytes(entriesCrc, 4)
  }

  function HeaderSector(current: u64, backup: u64, lastUsable: u64, entriesAt: u64, entriesCrc: u32): Sector {
    var rest := HeaderRest(current, backup, lastUsable, entriesAt, entriesCrc);
    HeaderHead() + LeBytes(Crc(HeaderHead() + [0, 0, 0, 0] + rest), 4) + rest + Repeat(420, 0 as byte)
  }

  lemma NumberAt(sector: seq<byte>, at: nat, width: nat, value: nat)
    requires at + width <= |sector| && sector[at..at + width] == LeBytes(value, width) && value < Pow2(8 * width)
    ensures Number(sector, at, width) == value
  {
    LeRoundTrip(value, width);
  }

  /** What the builder writes as a header, the reader takes as one. */
  lemma HeaderParsesBack(current: u64, backup: u64, lastUsable: u64, entriesAt: u64, entriesCrc: u32)
    ensures ParseHeader(HeaderSector(current, backup, lastUsable, entriesAt, entriesCrc)) ==
              Some(Header(entriesAt, 128, 128, entriesCrc))
  {
    hide LeBytes, Crc, Number, Pow2;
    Pow2At31();
    Pow2At63();
    var rest := HeaderRest(current, backup, lastUsable, entriesAt, entriesCrc);
    var sector := HeaderSector(current, backup, lastUsable, entriesAt, entriesCrc);
    var checksum := Crc(HeaderHead() + [0, 0, 0, 0] + rest);
    assert sector[0..8] == SIGNATURE;
    assert sector[12..16] == LeBytes(92, 4);
    NumberAt(sector, 12, 4, 92);
    assert sector[..16] == HeaderHead();
    assert sector[16..20] == LeBytes(checksum, 4);
    NumberAt(sector, 16, 4, checksum);
    assert sector[20..92] == rest;
    assert sector[72..80] == rest[52..60] == LeBytes(entriesAt, 8);
    NumberAt(sector, 72, 8, entriesAt);
    assert sector[80..84] == rest[60..64] == LeBytes(128, 4);
    NumberAt(sector, 80, 4, 128);
    assert sector[84..88] == rest[64..68] == LeBytes(128, 4);
    NumberAt(sector, 84, 4, 128);
    assert sector[88..92] == rest[68..72] == LeBytes(entriesCrc, 4);
    NumberAt(sector, 88, 4, entriesCrc);
  }

  lemma RestLayout(current: u64, backup: u64, lastUsable: u64, entriesAt: u64, entriesCrc: u32)
    ensures var rest := HeaderRest(current, backup, lastUsable, entriesAt, entriesCrc);
            && Number(rest, 0, 4) == 0 && Number(rest, 4, 8) == current && Number(rest, 12, 8) == backup
            && Number(rest, 20, 8) == 34 && Number(rest, 28, 8) == lastUsable && rest[36..52] == StableGuid(0)
  {
    hide LeBytes, Number, Pow2, StableGuid;
    Pow2At31();
    Pow2At63();
    var rest := HeaderRest(current, backup, lastUsable, entriesAt, entriesCrc);
    assert rest[0..4] == LeBytes(0, 4);
    NumberAt(rest, 0, 4, 0);
    assert rest[4..12] == LeBytes(current, 8);
    NumberAt(rest, 4, 8, current);
    assert rest[12..20] == LeBytes(backup, 8);
    NumberAt(rest, 12, 8, backup);
    assert rest[20..28] == LeBytes(34, 8);
    NumberAt(rest, 20, 8, 34);
    assert rest[28..36] == LeBytes(lastUsable, 8);
    NumberAt(rest, 28, 8, lastUsable);
  }

  lemma HeadLayout()
    ensures Number(HeaderHead(), 8, 4) == 0x1_0000 && Number(HeaderHead(), 12, 4) == 92
    ensures forall i :: 0 <= i < 8 ==> HeaderHead()[i] == "EFI PART"[i] as int
  {
    hide LeBytes, Number, Pow2;
    Pow2At31();
    assert HeaderHead()[8..12] == LeBytes(0x1_0000, 4);
    NumberAt(HeaderHead(), 8, 4, 0x1_0000);
    assert HeaderHead()[12..16] == LeBytes(92, 4);
    NumberAt(HeaderHead(), 12, 4, 92);
  }

  /**
   * Where the fields of a header are (section 5.3.2 of the UEFI Specification): signature, revision and
   * size before the checksum, and behind it the two header sectors, the usable range and the disk's GUID.
   */
  lemma HeaderLayout(current: u64, backup: u64, lastUsable: u64, entriesAt: u64, entriesCrc: u32)
    ensures var sector := HeaderSector(current, backup, lastUsable, entriesAt, entriesCrc);
            var (head, rest) := (sector[0..16], sector[20..92]);
            && (forall i :: 0 <= i < 8 ==> head[i] == "EFI PART"[i] as int)
            && Number(head, 8, 4) == 0x1_0000 && Number(head, 12, 4) == 92
            && Number(rest, 0, 4) == 0 && Number(rest, 4, 8) == current && Number(rest, 12, 8) == backup
            && Number(rest, 20, 8) == 34 && Number(rest, 28, 8) == lastUsable
            && (forall i :: 0 <= i < 15 ==> rest[36..52][i] == "i3mlOS-disk-gui"[i] as int) && rest[36..52][15] == 0
            && sector[92..] == Repeat(420, 0 as byte)
  {
    hide LeBytes, Crc, Number, HeaderHead, HeaderRest;
    HeadLayout();
    RestLayout(current, backup, lastUsable, entriesAt, entriesCrc);
    var sector := HeaderSector(current, backup, lastUsable, entriesAt, entriesCrc);
    assert sector[0..16] == HeaderHead();
    assert sector[20..92] == HeaderRest(current, backup, lastUsable, entriesAt, entriesCrc);
  }

  /** Where the fields of an entry are; a shorter name is filled up with zeros. */
  lemma EntryLayout(p: PartitionSpec, index: nat)
    requires index < 128
    ensures var entry := EntryBytes(p, index);
            && entry[0..16] == p.typeGuid && entry[16..31] == StableGuid(0)[..15] && entry[31] == index + 1
            && Number(entry, 32, 8) == p.first && Number(entry, 40, 8) == p.last &&
                 entry[48..56] == Repeat(8, 0 as byte)
            && forall k :: 0 <= k < 36 ==>
                 entry[56 + 2 * k..58 + 2 * k] == LeBytes(if k < |p.name| then p.name[k] else 0, 2)
  {
    hide LeBytes, Number, Pow2, NameBytes;
    Pow2At63();
    var entry := EntryBytes(p, index);
    assert entry[32..40] == LeBytes(p.first, 8) && entry[40..48] == LeBytes(p.last, 8);
    NumberAt(entry, 32, 8, p.first);
    NumberAt(entry, 40, 8, p.last);
    assert entry[56..128] == NameBytes(p.name, 36);
    forall k | 0 <= k < 36
      ensures entry[56 + 2 * k..58 + 2 * k] == LeBytes(if k < |p.name| then p.name[k] else 0, 2)
    {
      NameUnit(p.name, 36, k);
      assert entry[56 + 2 * k..58 + 2 * k] == entry[56..128][2 * k..2 * k + 2];
    }
  }

  lemma {:induction false} NameUnit(units: seq<nat>, n: nat, k: nat)
    requires k < n
    ensures NameBytes(units, n)[2 * k..2 * k + 2] == LeBytes(if k < |units| then units[k] else 0, 2)
  {
    hide LeBytes;
    var rest := if |units| > 0 then units[1..] else [];
    if k > 0 {
      NameUnit(rest, n - 1, k - 1);
      assert NameBytes(units, n)[2 * k..2 * k + 2] == NameBytes(rest, n - 1)[2 * (k - 1)..2 * (k - 1) + 2];
    }
  }

  // ----- the builder -----

  /** One partition over the whole disk, for tools that know nothing newer. */
  function ProtectiveMbr(lastLba: nat): Sector {
    var span := if lastLba < TWO_32 then lastLba else TWO_32 - 1;
    Repeat(450, 0 as byte) + [0xee] + Repeat(3, 0 as byte) + LeBytes(1, 4) + LeBytes(span, 4) + Repeat(48, 0 as byte) +
      [0x55, 0xaa]
  }

  /** The one entry of the protective table: type 0xee, from sector 1 to the end or as far as 32 bits go. */
  lemma MbrLayout(lastLba: nat)
    ensures var sector := ProtectiveMbr(lastLba);
            && (forall i :: 0 <= i < 450 || 462 <= i < 510 ==> sector[i] == 0)
            && sector[450] == 0xee && Number(sector, 454, 4) == 1
            && Number(sector, 458, 4) == (if lastLba <= 0xffff_ffff then lastLba else 0xffff_ffff)
            && sector[510..512] == [0x55, 0xaa]
  {
    hide LeBytes, Number, Pow2;
    Pow2At31();
    var sector := ProtectiveMbr(lastLba);
    var span := if lastLba < TWO_32 then lastLba else TWO_32 - 1;
    assert sector[454..458] == LeBytes(1, 4) && sector[458..462] == LeBytes(span, 4);
    NumberAt(sector, 454, 4, 1);
    NumberAt(sector, 458, 4, span);
  }

  /** Both copies of the table, each header pointing at its own entry array. */
  ghost predicate HasGpt(bytes: seq<byte>, parts: seq<PartitionSpec>) {
    var total := |bytes| / 512;
    var entries := EntryArray(parts, 128);
    && 67 <= total < TWO_64 && |bytes| == 512 * total
    && Holds(bytes, 0, ProtectiveMbr(total - 1))
    && Holds(bytes, 512, HeaderSector(1, total - 1, total - 34, 2, Crc(entries)))
    && Holds(bytes, 1024, entries)
    && Holds(bytes, (total - 33) * 512, entries)
    && Holds(bytes, (total - 1) * 512, HeaderSector(total - 1, 1, total - 34, total - 33, Crc(entries)))
  }

  lemma {:induction false} PrefixOfArray(parts: seq<PartitionSpec>, n: nat, i: nat)
    requires n <= i < |parts|
    ensures EntryArray(parts[..i], n) == EntryArray(parts[..i + 1], n)
  {
    hide EntryBytes;
    if n > 0 {
      PrefixOfArray(parts, n - 1, i);
    }
  }

  /** Writing one more entry into the array. */
  lemma {:induction false} ArrayGrows(parts: seq<PartitionSpec>, i: nat, n: nat)
    requires i < |parts| && i < n
    ensures WriteAt(EntryArray(parts[..i], n), 128 * i, EntryBytes(parts[i], i)) == EntryArray(parts[..i + 1], n)
    decreases n
  {
    hide EntryBytes;
    if n == i + 1 {
      PrefixOfArray(parts, i, i);
    } else {
      ArrayGrows(parts, i, n - 1);
    }
  }

  class DiskBytes {
    var bytes: seq<byte>

    constructor (sectors: nat)
      ensures bytes == Repeat(sectors * 512, 0 as byte)
    {
      bytes := Repeat(sectors * 512, 0 as byte);
    }

    method Write(offset: nat, data: seq<byte>)
      requires offset + |data| <= |bytes|
      modifies this
      ensures bytes == WriteAt(old(bytes), offset, data)
    {
      bytes := bytes[..offset] + data + bytes[offset + |data|..];
    }

    /** Write both copies of the table, and nothing between them. */
    method WriteGpt(parts: seq<PartitionSpec>)
      requires |bytes| % 512 == 0 && 67 <= |bytes| / 512 < TWO_64 && |parts| <= ENTRY_COUNT
      modifies this
      ensures |bytes| == |old(bytes)| && HasGpt(bytes, parts)
      ensures Holds(bytes, 34 * 512, old(bytes)[34 * 512..|bytes| - 33 * 512])
    {
      hide WriteAt, HeaderSector, ProtectiveMbr, EntryArray, EntryBytes, Crc;
      var total := |bytes| / 512;
      var lastLba := total - 1;
      ghost var middle := bytes[34 * 512..|bytes| - 33 * 512];
      Write(0, ProtectiveMbr(lastLba));
      var mbr := ProtectiveMbr(lastLba);
      WrittenElsewhere(old(bytes), 0, mbr, 34 * 512, middle);
      WrittenHolds(old(bytes), 0, mbr);
      var entries := BuildEntries(parts);
      var crc := Crc(entries);
      var backupEntries := lastLba - 32;
      var primary := HeaderSector(1, lastLba, backupEntries - 1, 2, crc);
      var backup := HeaderSector(lastLba, 1, backupEntries - 1, backupEntries, crc);
      label A:
      Write(1024, entries);
      WrittenElsewhere(old@A(bytes), 1024, entries, 34 * 512, middle);
      WrittenElsewhere(old@A(bytes), 1024, entries, 0, mbr);
      WrittenHolds(old@A(bytes), 1024, entries);
      label B:
      Write(backupEntries * 512, entries);
      WrittenElsewhere(old@B(bytes), backupEntries * 512, entries, 34 * 512, middle);
      WrittenElsewhere(old@B(bytes), backupEntries * 512, entries, 0, mbr);
      WrittenElsewhere(old@B(bytes), backupEntries * 512, entries, 1024, entries);
      WrittenHolds(old@B(bytes), backupEntries * 512, entries);
      label C:
      Write(512, primary);
      WrittenElsewhere(old@C(bytes), 512, primary, 34 * 512, middle);
      WrittenElsewhere(old@C(bytes), 512, primary, 0, mbr);
      WrittenElsewhere(old@C(bytes), 512, primary, 1024, entries);
      WrittenElsewhere(old@C(bytes), 512, primary, backupEntries * 512, entries);
      WrittenHolds(old@C(bytes), 512, primary);
      label D:
      Write(lastLba * 512, backup);
      WrittenElsewhere(old@D(bytes), lastLba * 512, backup, 34 * 512, middle);
      WrittenElsewhere(old@D(bytes), lastLba * 512, backup, 0, mbr);
      WrittenElsewhere(old@D(bytes), lastLba * 512, backup, 1024, entries);
      WrittenElsewhere(old@D(bytes), lastLba * 512, backup, backupEntries * 512, entries);
      WrittenElsewhere(old@D(bytes), lastLba * 512, backup, 512, primary);
      WrittenHolds(old@D(bytes), lastLba * 512, backup);
    }
  }

  method BuildEntries(parts: seq<PartitionSpec>) returns (entries: seq<byte>)
    requires |parts| <= ENTRY_COUNT
    ensures entries == EntryArray(parts, 128)
  {
    hide EntryBytes;
    entries := Repeat(ENTRY_COUNT * ENTRY_BYTES, 0 as byte);
    EmptyArray(128);
    for index := 0 to |parts|
      invariant entries == EntryArray(parts[..index], 128)
    {
      ArrayGrows(parts, index, 128);
      entries := WriteAt(entries, index * ENTRY_BYTES, EntryBytes(parts[index], index));
    }
    assert parts[..|parts|] == parts;
  }

  lemma {:induction false} EmptyArray(n: nat)
    ensures EntryArray([], n) == Repeat(128 * n, 0 as byte)
  {
    if n > 0 {
      EmptyArray(n - 1);
    }
  }

  // ----- builder and reader agree -----

  /** What a reader should answer: the first partition of the type. */
  function Expected(parts: seq<PartitionSpec>, guid: Guid, from: nat): Result<Partition, GptFault>
    requires from <= |parts|
    decreases |parts| - from
  {
    if from == |parts| then Err(NoTable)
    else if parts[from].typeGuid == guid then Ok(Partition(guid, parts[from].first, parts[from].last))
    else Expected(parts, guid, from + 1)
  }

  ghost predicate InRange(parts: seq<PartitionSpec>, total: nat) {
    forall i :: 0 <= i < |parts| ==> parts[i].first <= parts[i].last < total
  }

  /** From sector `lba`, the image carries the entry array. */
  ghost predicate CarriesArray(image: Image, lba: nat, entries: seq<byte>) {
    && |entries| == 16384 && lba + 32 <= |image|
    && forall k :: 0 <= k < 32 ==> image[lba + k] == entries[512 * k..512 * k + 512]
  }

  lemma {:induction false} RunIsArray(image: Image, lba: nat, entries: seq<byte>, n: nat)
    requires CarriesArray(image, lba, entries) && n <= 32
    ensures Run(image, lba, n) == entries[..512 * n]
  {
    if n > 0 {
      RunIsArray(image, lba, entries, n - 1);
      assert image[lba + (n - 1)] == entries[512 * (n - 1)..512 * (n - 1) + 512];
    }
  }

  lemma EntryIsThere(image: Image, lba: nat, parts: seq<PartitionSpec>, crc: nat, index: nat)
    requires CarriesArray(image, lba, EntryArray(parts, 128)) && index < 128
    ensures EntryAt(image, Header(lba, 128, 128, crc), index) == Ok(EntryOrNone(parts, index))
  {
    hide EntryOrNone;
    var entries := EntryArray(parts, 128);
    ArrayHoldsEntry(parts, 128, index);
    hide EntryArray;
    var (k, m) := (index / 4, index % 4);
    assert index * 128 == 512 * k + 128 * m;
    assert image[lba + k] == entries[512 * k..512 * k + 512];
    assert entries[512 * k..512 * k + 512][128 * m..128 * m + 128] == entries[128 * index..128 * index + 128];
  }

  lemma EntryReadsBack(p: PartitionSpec, index: nat, total: nat)
    requires p.first <= p.last < total
    ensures CheckEntry(EntryBytes(p, index), total) == Ok(Partition(p.typeGuid, p.first, p.last))
    ensures EntryBytes(p, index)[0..16] == p.typeGuid
  {
    hide LeBytes, Number, Pow2, NameBytes;
    Pow2At63();
    var entry := EntryBytes(p, index);
    assert entry[0..16] == p.typeGuid;
    assert entry[32..40] == LeBytes(p.first, 8);
    NumberAt(entry, 32, 8, p.first);
    assert entry[40..48] == LeBytes(p.last, 8);
    NumberAt(entry, 40, 8, p.last);
  }

  lemma {:induction false} SearchFindsFirst(image: Image, lba: nat, parts: seq<PartitionSpec>, crc: nat, guid: Guid,
        index: nat)
    requires CarriesArray(image, lba, EntryArray(parts, 128)) && index <= 128 && |parts| <= 128
    requires InRange(parts, |image|) && guid != Repeat(16, 0 as byte)
    ensures Search(image, Header(lba, 128, 128, crc), guid, index) ==
              if index <= |parts| then Expected(parts, guid, index) else Err(NoTable)
    decreases 128 - index
  {
    hide CarriesArray, EntryArray, EntryBytes, EntryAt, CheckEntry;
    if index < 128 {
      EntryIsThere(image, lba, parts, crc, index);
      SearchFindsFirst(image, lba, parts, crc, guid, index + 1);
      if index < |parts| {
        EntryReadsBack(parts[index], index, |image|);
      } else {
        assert EntryOrNone(parts, index)[0..16] == Repeat(16, 0 as byte);
      }
    }
  }

  lemma TableAnswers(image: Image, lba: nat, parts: seq<PartitionSpec>, guid: Guid)
    requires CarriesArray(image, lba, EntryArray(parts, 128)) && |parts| <= 128
    requires InRange(parts, |image|) && guid != Repeat(16, 0 as byte)
    ensures FindWith(image, Header(lba, 128, 128, Crc(EntryArray(parts, 128))), guid) == Expected(parts, guid, 0)
  {
    var entries := EntryArray(parts, 128);
    RunIsArray(image, lba, entries, 32);
    assert entries[..16384] == entries;
    SearchFindsFirst(image, lba, parts, Crc(entries), guid, 0);
    hide EntryArray, Search, Crc, Run, CarriesArray;
    assert ArrayRead(image, lba, 32, 16384) == entries;
  }

  lemma HeldPart(bytes: seq<byte>, at: nat, data: seq<byte>, skip: nat, n: nat)
    requires Holds(bytes, at, data) && skip + n <= |data|
    ensures Holds(bytes, at + skip, data[skip..skip + n])
  {
    var (a, b, c) := (data[..skip], data[skip..skip + n], data[skip + n..]);
    assert data == a + (b + c);
    HoldsSplit(bytes, at, a, b + c);
    HoldsSplit(bytes, at + skip, b, c);
  }

  lemma HeldSector(bytes: seq<byte>, at: nat, data: seq<byte>, k: nat, j: nat)
    requires Holds(bytes, at, data) && at == k * 512 && 512 * j + 512 <= |data|
    ensures k + j < |bytes| / 512 && Sectors(bytes)[k + j] == data[512 * j..512 * j + 512]
  {
    HeldPart(bytes, at, data, 512 * j, 512);
  }

  lemma HeldArray(bytes: seq<byte>, lba: nat, entries: seq<byte>)
    requires Holds(bytes, lba * 512, entries) && |entries| == 16384
    ensures CarriesArray(Sectors(bytes), lba, entries)
  {
    hide Sectors;
    forall k | 0 <= k < 32
      ensures lba + k < |Sectors(bytes)| && Sectors(bytes)[lba + k] == entries[512 * k..512 * k + 512]
    {
      HeldSector(bytes, lba * 512, entries, lba, k);
    }
    assert lba + 31 < |Sectors(bytes)|;
  }

  /** The primary header is found and parses. */
  lemma PrimaryParses(bytes: seq<byte>, parts: seq<PartitionSpec>)
    requires HasGpt(bytes, parts)
    ensures HeaderIn(Sectors(bytes)) == Some(Header(2, 128, 128, Crc(EntryArray(parts, 128))))
  {
    hide ParseHeader, HeaderSector, EntryArray, Sectors, Crc, ProtectiveMbr;
    var (total, crc) := (|bytes| / 512, Crc(EntryArray(parts, 128)));
    var header := HeaderSector(1, total - 1, total - 34, 2, crc);
    HeldSector(bytes, 512, header, 1, 0);
    assert header[0..512] == header;
    HeaderParsesBack(1, total - 1, total - 34, 2, crc);
  }

  /** The reader finds in the builder's image the first partition of each type, or none. */
  lemma FindAgreesWithBuilder(bytes: seq<byte>, parts: seq<PartitionSpec>, guid: Guid)
    requires HasGpt(bytes, parts) && |parts| <= 128 && InRange(parts, |bytes| / 512) && guid != Repeat(16, 0 as byte)
    ensures FindIn(Sectors(bytes), guid) == Expected(parts, guid, 0)
  {
    hide ParseHeader, HeaderSector, EntryArray, FindWith, Sectors, Crc, Expected, HeaderIn, ProtectiveMbr;
    PrimaryParses(bytes, parts);
    HeldArray(bytes, 2, EntryArray(parts, 128));
    TableAnswers(Sectors(bytes), 2, parts, guid);
  }

  /** The backup header parses where the last sector is intact. */
  lemma BackupParses(bytes: seq<byte>, parts: seq<PartitionSpec>, image: Image)
    requires HasGpt(bytes, parts) && |image| == |bytes| / 512 && ParseAt(image, 1) == None
    requires image[|image| - 1] == Sectors(bytes)[|image| - 1]
    ensures HeaderIn(image) == Some(Header(|image| - 33, 128, 128, Crc(EntryArray(parts, 128))))
  {
    hide ParseHeader, HeaderSector, EntryArray, Sectors, Crc, ProtectiveMbr, ParseAt;
    var (total, entries) := (|bytes| / 512, EntryArray(parts, 128));
    var header := HeaderSector(total - 1, 1, total - 34, total - 33, Crc(entries));
    HeldSector(bytes, (total - 1) * 512, header, total - 1, 0);
    assert header[0..512] == header;
    HeaderParsesBack(total - 1, 1, total - 34, total - 33, Crc(entries));
  }

  /** And from the backup alone, when the primary header no longer parses and the front is lost. */
  lemma FindAgreesFromBackup(bytes: seq<byte>, parts: seq<PartitionSpec>, guid: Guid, image: Image)
    requires HasGpt(bytes, parts) && |parts| <= 128 && InRange(parts, |bytes| / 512) && guid != Repeat(16, 0 as byte)
    requires |image| == |bytes| / 512 && ParseAt(image, 1) == None
    requires image[|image| - 33..] == Sectors(bytes)[|image| - 33..]
    ensures FindIn(image, guid) == Expected(parts, guid, 0)
  {
    hide ParseHeader, HeaderSector, EntryArray, FindWith, Sectors, Crc, Expected, HeaderIn, ProtectiveMbr, ParseAt;
    var (total, entries) := (|bytes| / 512, EntryArray(parts, 128));
    HeldArray(bytes, total - 33, entries);
    SameTail(image, Sectors(bytes), total - 33, entries);
    BackupParses(bytes, parts, image);
    TableAnswers(image, total - 33, parts, guid);
  }

  lemma SameTail(image: Image, image': Image, lba: nat, entries: seq<byte>)
    requires |image| == |image'| == lba + 33 && image[lba..] == image'[lba..] && CarriesArray(image', lba, entries)
    ensures CarriesArray(image, lba, entries) && image[lba + 32] == image'[lba + 32]
  {
    forall j | lba <= j < |image| ensures image[j] == image'[j] {
      assert image[lba..][j - lba] == image'[lba..][j - lba];
    }
  }
}
