/**
 * The EFI system partition: how the size of its allocation table is found, and the file system
 * that holds exactly one file, which reads back.
 */
module Fat {
  import opened Basics
  import opened Journal
  import opened Gpt
  import opened DiskImage

  const RESERVED: nat := 32
  const FATS: nat := 2

  // ----- sizing -----

  /** Table sectors for this many data clusters and the two reserved entries. */
  function FatFor(data: nat): nat {
    CeilDiv((data + 2) * 4, 512)
  }

  /** Data sectors left of `n` by a table of that size. */
  function Left(n: nat, data: nat): int {
    n - 2 * FatFor(data)
  }

  lemma LeftIsSmaller(n: nat, data: nat)
    requires n >= 2 && data <= n - 2
    ensures 0 <= Left(n, data) <= n - 2
  {
  }

  lemma LeftIsAntitone(n: nat, less: nat, more: nat)
    requires less <= more
    ensures Left(n, more) <= Left(n, less) && FatFor(less) <= FatFor(more)
  {
  }

  /** The data area after each round of the iteration. */
  function Round(n: nat, k: nat): (data: nat)
    requires n >= 2
    ensures data <= n - 2
  {
    if k == 0 then
      LeftIsSmaller(n, n - 2);
      Left(n, n - 2)
    else
      LeftIsSmaller(n, Round(n, k - 1));
      Left(n, Round(n, k - 1))
  }

  /** The step is antitone, so rounds alternate around the answer: even ones from below. */
  lemma {:induction false} RoundsAlternate(n: nat, k: nat)
    requires n >= 2
    ensures k % 2 == 0 ==> Round(n, k) <= Round(n, k + 1)
    ensures k % 2 == 1 ==> Round(n, k) >= Round(n, k + 1)
  {
    hide FatFor;
    if k == 0 {
      LeftIsAntitone(n, Round(n, 0), n - 2);
    } else {
      RoundsAlternate(n, k - 1);
      if k % 2 == 0 {
        LeftIsAntitone(n, Round(n, k), Round(n, k - 1));
      } else {
        LeftIsAntitone(n, Round(n, k - 1), Round(n, k));
      }
    }
  }

  /** The table has an entry for every data cluster. */
  predicate CoversClusters(fat: nat, data: nat) {
    (data + 2) * 4 <= fat * 512
  }

  /** After any even number of rounds the table found last covers the data area it leaves. */
  lemma EvenRoundsCover(n: nat, k: nat)
    requires n >= 2 && k > 0 && k % 2 == 0
    ensures CoversClusters(FatFor(Round(n, k - 1)), Round(n, k))
  {
    RoundsAlternate(n, k - 1);
    LeftIsAntitone(n, Round(n, k), Round(n, k - 1));
  }

  /** After an odd number it need not: here the iteration never settles, and falls short each time. */
  lemma {:induction false} OddRoundsMayFallShort(k: nat)
    ensures Round(129, k) == if k % 2 == 0 then 125 else 127
    ensures k % 2 == 1 ==> !CoversClusters(FatFor(Round(129, k - 1)), Round(129, k))
  {
    hide FatFor, CeilDiv;
    SmallTables();
    if k > 0 {
      OddRoundsMayFallShort(k - 1);
    }
  }

  lemma SmallTables()
    ensures FatFor(127) == 2 && FatFor(125) == 1
  {
  }

  /** Eight rounds of the iteration, and the area it leaves for clusters. */
  method SizeFat(sectors: nat) returns (fatSectors: nat, dataSectors: nat)
    requires sectors >= 34
    ensures RESERVED + FATS * fatSectors + dataSectors == sectors
    ensures CoversClusters(fatSectors, dataSectors)
    ensures fatSectors == FatFor(Round(sectors - 32, 7)) && dataSectors == Round(sectors - 32, 8)
  {
    hide CeilDiv, CoversClusters;
    ghost var n: nat := sectors - 32;
    var clusters := sectors - RESERVED;
    LeftIsSmaller(n, n - 2);
    fatSectors := CeilDiv(clusters * 4, 512);
    dataSectors := sectors - RESERVED - FATS * fatSectors;
    for round := 0 to 8
      invariant dataSectors == Round(n, round)
      invariant round > 0 ==> fatSectors == FatFor(Round(n, round - 1))
      invariant RESERVED + FATS * fatSectors + dataSectors == sectors
    {
      LeftIsSmaller(n, dataSectors);
      fatSectors := CeilDiv((dataSectors + 2) * 4, 512);
      dataSectors := sectors - RESERVED - FATS * fatSectors;
    }
    EvenRoundsCover(n, 8);
  }

  // ----- what the file system consists of -----

  const END_OF_CHAIN: nat := 0x0fff_ffff
  const MINIMUM_CLUSTERS: nat := 65525

  /** Jump, maker, sector and cluster sizes, reserved sectors, number of tables. */
  function BootStart(): (r: seq<byte>)
    ensures |r| == 28
  {
    [0xeb, 0x58, 0x90] + [0x69, 0x33, 0x6d, 0x6c, 0x4f, 0x53, 0x20, 0x20] + LeBytes(512, 2) + [1] + LeBytes(32, 2) + [2]
      + Repeat(4, 0 as byte) + [0xf8] + LeBytes(0, 2) + LeBytes(32, 2) + LeBytes(8, 2)
  }

  /** Where the partition starts, how long it and its tables are, and where the root is. */
  function BootSizes(first: u64, sectors: u64, fatSectors: nat): (r: seq<byte>)
    ensures |r| == 24
  {
    LeBytes(first % TWO_32, 4) + LeBytes(sectors % TWO_32, 4) + LeBytes(fatSectors % TWO_32, 4) + Repeat(4, 0 as byte)
      + LeBytes(2, 4) + LeBytes(1, 2) + LeBytes(6, 2)
  }

  function BootEnd(): (r: seq<byte>)
    ensures |r| == 460
  {
    Repeat(12, 0 as byte) + [0x80, 0, 0x29] + LeBytes(0x1391_1391, 4)
      + [0x49, 0x33, 0x4d, 0x4c, 0x4f, 0x53, 0x20, 0x20, 0x20, 0x20, 0x20] +
        [0x46, 0x41, 0x54, 0x33, 0x32, 0x20, 0x20, 0x20]
      + Repeat(420, 0 as byte) + [0x55, 0xaa]
  }

  function BootSector(first: u64, sectors: u64, fatSectors: nat): Sector {
    BootStart() + BootSizes(first, sectors, fatSectors) + BootEnd()
  }

  function InfoSector(): Sector {
    LeBytes(0x4161_5252, 4) + Repeat(480, 0 as byte) + LeBytes(0x6141_7272, 4) + Repeat(8, 0xff as byte) +
      Repeat(12, 0 as byte) + [0x55, 0xaa, 0, 0]
  }

  type Name = s: seq<byte> | |s| == 11 witness Repeat(11, 0x20 as byte)

  const DOT: Name := [0x2e] + Repeat(10, 0x20 as byte)
  const DOT_DOT: Name := [0x2e, 0x2e] + Repeat(9, 0x20 as byte)
  const EFI: Name := [0x45, 0x46, 0x49] + Repeat(8, 0x20 as byte)
  const BOOT: Name := [0x42, 0x4f, 0x4f, 0x54] + Repeat(7, 0x20 as byte)
  const BOOTX64: Name := [0x42, 0x4f, 0x4f, 0x54, 0x58, 0x36, 0x34, 0x20, 0x45, 0x46, 0x49]

  function DirectoryEntry(name: Name, attributes: byte, cluster: nat, size: nat): (r: seq<byte>)
    ensures |r| == 32
  {
    name + [attributes] + Repeat(8, 0 as byte) + LeBytes(cluster / 0x1_0000 % 0x1_0000, 2) + Repeat(4, 0 as byte)
      + LeBytes(cluster % 0x1_0000, 2) + LeBytes(size % TWO_32, 4)
  }

  /** What the allocation table says of one cluster, when the file takes `k` of them from 5. */
  function FatValue(cluster: nat, k: nat): (v: u32)
    requires k > 0 && cluster < 5 + k < 0x0fff_fff8
  {
    if cluster == 0 then 0x0fff_fff8 else if cluster < 5 || cluster == 4 + k then END_OF_CHAIN else cluster + 1
  }

  /** Media type and mark first, three one-cluster directories, and one chain through the file's clusters. */
  lemma TableValues(k: nat, i: nat)
    requires k > 0 && 5 + k < 0x0fff_fff8 && i < k
    ensures FatValue(0, k) == 0x0fff_fff8 && FatValue(1, k) == 0x0fff_ffff
    ensures FatValue(2, k) == FatValue(3, k) == FatValue(4, k) == 0x0fff_ffff
    ensures FatValue(5 + i, k) == if i + 1 < k then 6 + i else 0x0fff_ffff
  {
  }

  /** The table holds these values up to cluster `n`. */
  ghost predicate FatHolds(fat: seq<byte>, n: nat, k: nat)
    requires k > 0 && 5 + k < 0x0fff_fff8 && n <= 5 + k
  {
    n * 4 <= |fat| && forall c: nat :: c < n ==> FatHas(fat, c, FatValue(c, k))
  }

  ghost predicate FatHas(fat: seq<byte>, c: nat, v: u32) {
    Holds(fat, c * 4, LeBytes(v, 4))
  }

  // ----- reading it -----

  /** How large things are and where they start, as the boot sector says; sizes in bytes, places in sectors. */
  datatype Geometry = Geometry(base: nat, sectorBytes: nat, clusterBytes: nat, reserved: nat, fats: nat,
        fatSectors: nat, root: nat)

  function GeometryAt(bytes: seq<byte>, base: nat): Geometry
    requires base + 512 <= |bytes|
  {
    var boot := bytes[base..base + 512];
    var sectorBytes := Number(boot, 11, 2);
    Geometry(base, sectorBytes, sectorBytes * boot[13], Number(boot, 14, 2), boot[16], Number(boot, 36, 4),
      Number(boot, 44, 4))
  }

  function ClusterAt(g: Geometry, cluster: nat): nat
    requires cluster >= 2
  {
    g.base + (g.reserved + g.fats * g.fatSectors) * g.sectorBytes + (cluster - 2) * g.clusterBytes
  }

  predicate HasCluster(bytes: seq<byte>, g: Geometry, cluster: nat) {
    cluster >= 2 && ClusterAt(g, cluster) + g.clusterBytes <= |bytes|
  }

  /** The first entry of this name among `n`: where it starts and how long it is. */
  function Lookup(bytes: seq<byte>, at: nat, n: nat, name: Name, i: nat): Option<(nat, nat)>
    requires at + 32 * n <= |bytes| && i <= n
    decreases n - i
  {
    if i == n then None
    else
      var entry := bytes[at + 32 * i..at + 32 * i + 32];
      if entry[0..11] == name then Some((Number(entry, 26, 2) + 0x1_0000 * Number(entry, 20, 2), Number(entry, 28, 4)))
      else Lookup(bytes, at, n, name, i + 1)
  }

  /** The entry of this name in a directory of one cluster. */
  function LookupIn(bytes: seq<byte>, g: Geometry, cluster: nat, name: Name): Option<(nat, nat)> {
    if HasCluster(bytes, g, cluster) then Lookup(bytes, ClusterAt(g, cluster), g.clusterBytes / 32, name, 0) else None
  }

  /** The clusters of a chain, end to end; none if it leaves the image or does not end in time. */
  function Chain(bytes: seq<byte>, g: Geometry, cluster: nat, steps: nat): Option<seq<byte>>
    decreases steps
  {
    if steps == 0 || !HasCluster(bytes, g, cluster) ||
      g.base + g.reserved * g.sectorBytes + cluster * 4 + 4 > |bytes| then None
    else
      var data := bytes[ClusterAt(g, cluster)..ClusterAt(g, cluster) + g.clusterBytes];
      var next := Number(bytes, g.base + g.reserved * g.sectorBytes + cluster * 4, 4);
      if next >= 0x0fff_fff8 then Some(data)
      else
        var rest :- Chain(bytes, g, next, steps - 1);
        Some(data + rest)
  }

  /** The file at `/EFI/BOOT/BOOTX64.EFI`, found from the boot sector on. */
  function ReadKernel(bytes: seq<byte>, base: nat, steps: nat): Option<seq<byte>>
    requires base + 512 <= |bytes|
  {
    var g := GeometryAt(bytes, base);
    var efi :- LookupIn(bytes, g, g.root, EFI);
    var boot :- LookupIn(bytes, g, efi.0, BOOT);
    var file :- LookupIn(bytes, g, boot.0, BOOTX64);
    var data :- Chain(bytes, g, file.0, steps);
    if file.1 <= |data| then Some(data[..file.1]) else None
  }

  // ----- writing it -----

  function KernelClusters(length: nat): (k: nat)
    ensures k > 0 && length <= 512 * k
  {
    var k := CeilDiv(length, 512);
    if k < 1 then 1 else k
  }

  /** The same bytes outside `low` up to `high`. */
  ghost predicate SameOutside(a: seq<byte>, b: seq<byte>, low: nat, high: nat) {
    |a| == |b| && low <= high <= |a| && a[..low] == b[..low] && a[high..] == b[high..]
  }

  lemma WriteStaysInside(bytes: seq<byte>, offset: nat, data: seq<byte>, low: nat, high: nat)
    requires low <= offset && offset + |data| <= high <= |bytes|
    ensures SameOutside(bytes, WriteAt(bytes, offset, data), low, high)
  {
  }

  lemma SameOutsideTransitive(a: seq<byte>, b: seq<byte>, c: seq<byte>, low: nat, high: nat, low': nat, high': nat)
    requires SameOutside(a, b, low, high) && SameOutside(b, c, low', high')
    requires low <= low' && high <= high'
    ensures SameOutside(a, c, low, high')
  {
    assert a[..low] == c[..low] by {
      assert b[..low] == b[..low'][..low];
      assert c[..low] == c[..low'][..low];
    }
    assert a[high'..] == c[high'..] by {
      assert a[high'..] == a[high..][high' - high..];
      assert b[high'..] == b[high..][high' - high..];
    }
  }

  lemma HeldOutside(a: seq<byte>, b: seq<byte>, low: nat, high: nat, at: nat, part: seq<byte>)
    requires SameOutside(a, b, low, high) && Holds(a, at, part) && at + |part| <= low
    ensures Holds(b, at, part)
  {
    assert b[at..at + |part|] == b[..low][at..at + |part|] == a[..low][at..at + |part|];
  }

  /** `Panics` is where the builder would index past its table or its image. */
  datatype FatFault = TooSmall(clusters: nat) | Panics

  /** Where data clusters start, in bytes from the partition's start. */
  function DataStart(fatSectors: nat): nat {
    (32 + 2 * fatSectors) * 512
  }

  method SetEntry(fat: seq<byte>, cluster: nat, k: nat) returns (r: seq<byte>)
    requires k > 0 && 5 + k < 0x0fff_fff8 && cluster < 5 + k && (5 + k) * 4 <= |fat| && FatHolds(fat, cluster, k)
    ensures |r| == |fat| && FatHolds(r, cluster + 1, k)
  {
    hide LeBytes, FatValue, WriteAt;
    var data := LeBytes(FatValue(cluster, k), 4);
    r := WriteAt(fat, cluster * 4, data);
    WrittenHolds(fat, cluster * 4, data);
    forall c: nat | c < cluster ensures FatHas(r, c, FatValue(c, k)) {
      assert FatHas(fat, c, FatValue(c, k));
      WrittenElsewhere(fat, cluster * 4, data, c * 4, LeBytes(FatValue(c, k), 4));
    }
  }

  /** The reserved entries, three one-cluster directories, and the chain of the file from cluster 5. */
  method BuildFat(fatSectors: nat, k: nat) returns (fat: seq<byte>)
    requires k > 0 && 5 + k < 0x0fff_fff8 && 5 + k <= 128 * fatSectors
    ensures |fat| == 512 * fatSectors && FatHolds(fat, 5 + k, k)
  {
    hide FatHas;
    fat := Repeat(fatSectors * 512, 0 as byte);
    for cluster := 0 to 5 + k
      invariant |fat| == 512 * fatSectors && FatHolds(fat, cluster, k)
    {
      fat := SetEntry(fat, cluster, k);
    }
  }

  /** The boot sector, its backup, and the information sector between them. */
  ghost predicate HasHead(bytes: seq<byte>, base: nat, boot: Sector) {
    Holds(bytes, base, boot) && Holds(bytes, base + 6 * 512, boot) && Holds(bytes, base + 512, InfoSector())
  }

  method WriteHead(image: DiskBytes, base: nat, boot: Sector)
    requires base + 32 * 512 <= |image.bytes|
    modifies image
    ensures SameOutside(old(image.bytes), image.bytes, base, base + 32 * 512)
    ensures HasHead(image.bytes, base, boot)
  {
    hide WriteAt, SameOutside, InfoSector;
    var high := base + 32 * 512;
    image.Write(base, boot);
    WriteStaysInside(old(image.bytes), base, boot, base, high);
    WrittenHolds(old(image.bytes), base, boot);
    label A:
    image.Write(base + 6 * 512, boot);
    WriteStaysInside(old@A(image.bytes), base + 6 * 512, boot, base, high);
    SameOutsideTransitive(old(image.bytes), old@A(image.bytes), image.bytes, base, high, base, high);
    WrittenElsewhere(old@A(image.bytes), base + 6 * 512, boot, base, boot);
    WrittenHolds(old@A(image.bytes), base + 6 * 512, boot);
    label B:
    image.Write(base + 512, InfoSector());
    WriteStaysInside(old@B(image.bytes), base + 512, InfoSector(), base, high);
    SameOutsideTransitive(old(image.bytes), old@B(image.bytes), image.bytes, base, high, base, high);
    WrittenElsewhere(old@B(image.bytes), base + 512, InfoSector(), base, boot);
    WrittenElsewhere(old@B(image.bytes), base + 512, InfoSector(), base + 6 * 512, boot);
    WrittenHolds(old@B(image.bytes), base + 512, InfoSector());
  }

  /** Two copies of the table, one after the other. */
  ghost predicate HasTables(bytes: seq<byte>, base: nat, fat: seq<byte>) {
    Holds(bytes, base + 32 * 512, fat) && Holds(bytes, base + 32 * 512 + |fat|, fat)
  }

  lemma HeadOutside(a: seq<byte>, b: seq<byte>, low: nat, high: nat, base: nat, boot: Sector)
    requires SameOutside(a, b, low, high) && HasHead(a, base, boot) && base + 7 * 512 <= low
    ensures HasHead(b, base, boot)
  {
    hide SameOutside, InfoSector;
    HeldOutside(a, b, low, high, base, boot);
    HeldOutside(a, b, low, high, base + 6 * 512, boot);
    HeldOutside(a, b, low, high, base + 512, InfoSector());
  }

  lemma TablesOutside(a: seq<byte>, b: seq<byte>, low: nat, high: nat, base: nat, fat: seq<byte>)
    requires SameOutside(a, b, low, high) && HasTables(a, base, fat) && base + 32 * 512 + 2 * |fat| <= low
    ensures HasTables(b, base, fat)
  {
    hide SameOutside;
    HeldOutside(a, b, low, high, base + 32 * 512, fat);
    HeldOutside(a, b, low, high, base + 32 * 512 + |fat|, fat);
  }

  method WriteFats(image: DiskBytes, base: nat, fatSectors: nat, fat: seq<byte>)
    requires base + DataStart(fatSectors) <= |image.bytes| && |fat| == 512 * fatSectors
    modifies image
    ensures SameOutside(old(image.bytes), image.bytes, base + 32 * 512, base + DataStart(fatSectors))
    ensures HasTables(image.bytes, base, fat)
  {
    hide WriteAt, SameOutside;
    var (low, high) := (base + 32 * 512, base + DataStart(fatSectors));
    image.Write(low, fat);
    WriteStaysInside(old(image.bytes), low, fat, low, high);
    WrittenHolds(old(image.bytes), low, fat);
    label A:
    image.Write(low + 512 * fatSectors, fat);
    WriteStaysInside(old@A(image.bytes), low + 512 * fatSectors, fat, low, high);
    SameOutsideTransitive(old(image.bytes), old@A(image.bytes), image.bytes, low, high, low, high);
    WrittenElsewhere(old@A(image.bytes), low + 512 * fatSectors, fat, low, fat);
    WrittenHolds(old@A(image.bytes), low + 512 * fatSectors, fat);
  }

  function RootDirectory(): (r: seq<byte>)
    ensures |r| == 32
  {
    DirectoryEntry(EFI, 0x10, 3, 0)
  }

  function EfiDirectory(): (r: seq<byte>)
    ensures |r| == 96
  {
    DirectoryEntry(DOT, 0x10, 3, 0) + DirectoryEntry(DOT_DOT, 0x10, 0, 0) + DirectoryEntry(BOOT, 0x10, 4, 0)
  }

  function BootDirectory(size: nat): (r: seq<byte>)
    ensures |r| == 96
  {
    DirectoryEntry(DOT, 0x10, 4, 0) + DirectoryEntry(DOT_DOT, 0x10, 3, 0) + DirectoryEntry(BOOTX64, 0x20, 5, size)
  }

  /** Three entries side by side, each written on its own. */
  method WriteEntries(image: DiskBytes, at: nat, a: seq<byte>, b: seq<byte>, c: seq<byte>)
    requires at + 512 <= |image.bytes| && |a| == |b| == |c| == 32
    modifies image
    ensures SameOutside(old(image.bytes), image.bytes, at, at + 512) && Holds(image.bytes, at, a + b + c)
  {
    hide WriteAt, SameOutside;
    image.Write(at, a);
    WriteStaysInside(old(image.bytes), at, a, at, at + 512);
    WrittenHolds(old(image.bytes), at, a);
    label A:
    image.Write(at + 32, b);
    WriteStaysInside(old@A(image.bytes), at + 32, b, at, at + 512);
    SameOutsideTransitive(old(image.bytes), old@A(image.bytes), image.bytes, at, at + 512, at, at + 512);
    WrittenElsewhere(old@A(image.bytes), at + 32, b, at, a);
    WrittenHolds(old@A(image.bytes), at + 32, b);
    label B:
    image.Write(at + 64, c);
    WriteStaysInside(old@B(image.bytes), at + 64, c, at, at + 512);
    SameOutsideTransitive(old(image.bytes), old@B(image.bytes), image.bytes, at, at + 512, at, at + 512);
    WrittenElsewhere(old@B(image.bytes), at + 64, c, at, a);
    WrittenElsewhere(old@B(image.bytes), at + 64, c, at + 32, b);
    WrittenHolds(old@B(image.bytes), at + 64, c);
    HoldsSplit(image.bytes, at, a, b);
    HoldsSplit(image.bytes, at, a + b, c);
  }

  method WriteDirectories(image: DiskBytes, data: nat, size: nat)
    requires data + 3 * 512 <= |image.bytes|
    modifies image
    ensures SameOutside(old(image.bytes), image.bytes, data, data + 3 * 512)
    ensures Holds(image.bytes, data, RootDirectory()) && Holds(image.bytes, data + 512, EfiDirectory())
    ensures Holds(image.bytes, data + 1024, BootDirectory(size))
  {
    hide WriteAt, SameOutside, DirectoryEntry;
    image.Write(data, RootDirectory());
    WriteStaysInside(old(image.bytes), data, RootDirectory(), data, data + 512);
    WrittenHolds(old(image.bytes), data, RootDirectory());
    SameLength(old(image.bytes), image.bytes, data, data + 512);
    label A:
    WriteEntries(image, data + 512, DirectoryEntry(DOT, 0x10, 3, 0), DirectoryEntry(DOT_DOT, 0x10, 0, 0),
      DirectoryEntry(BOOT, 0x10, 4, 0));
    SameLength(old@A(image.bytes), image.bytes, data + 512, data + 1024);
    SameOutsideTransitive(old(image.bytes), old@A(image.bytes), image.bytes, data, data + 512, data + 512, data + 1024);
    HeldOutside(old@A(image.bytes), image.bytes, data + 512, data + 1024, data, RootDirectory());
    label B:
    WriteEntries(image, data + 1024, DirectoryEntry(DOT, 0x10, 4, 0), DirectoryEntry(DOT_DOT, 0x10, 3, 0),
      DirectoryEntry(BOOTX64, 0x20, 5, size));
    SameOutsideTransitive(old(image.bytes), old@B(image.bytes), image.bytes, data, data + 1024, data + 1024,
      data + 1536);
    HeldOutside(old@B(image.bytes), image.bytes, data + 1024, data + 1536, data, RootDirectory());
    HeldOutside(old@B(image.bytes), image.bytes, data + 1024, data + 1536, data + 512, EfiDirectory());
  }

  lemma SameLength(a: seq<byte>, b: seq<byte>, low: nat, high: nat)
    requires SameOutside(a, b, low, high)
    ensures |a| == |b|
  {
  }

  /** Everything that reading the kernel back depends on. */
  ghost predicate HasFileSystem(bytes: seq<byte>, base: nat, boot: Sector, fatSectors: nat, fat: seq<byte>,
        kernel: seq<byte>) {
    var data := base + DataStart(fatSectors);
    && HasHead(bytes, base, boot)
    && HasTables(bytes, base, fat)
    && Holds(bytes, data, RootDirectory())
    && Holds(bytes, data + 512, EfiDirectory())
    && Holds(bytes, data + 1024, BootDirectory(|kernel|))
    && Holds(bytes, data + 1536, kernel)
  }

  lemma HeadAndTables(bytes: seq<byte>, base: nat, boot: Sector, fatSectors: nat, fat: seq<byte>, kernel: seq<byte>)
    requires HasFileSystem(bytes, base, boot, fatSectors, fat, kernel)
    ensures HasHead(bytes, base, boot) && HasTables(bytes, base, fat)
  {
    hide HasHead, HasTables;
  }

  method WriteAll(image: DiskBytes, base: nat, boot: Sector, fatSectors: nat, fat: seq<byte>, kernel: seq<byte>)
    requires |fat| == 512 * fatSectors && base + DataStart(fatSectors) + 1536 + |kernel| <= |image.bytes|
    modifies image
    ensures SameOutside(old(image.bytes), image.bytes, base, base + DataStart(fatSectors) + 1536 + |kernel|)
    ensures HasFileSystem(image.bytes, base, boot, fatSectors, fat, kernel)
  {
    hide WriteAt, SameOutside, RootDirectory, EfiDirectory, BootDirectory, HasHead, HasTables;
    var data := base + DataStart(fatSectors);
    WriteHead(image, base, boot);
    SameLength(old(image.bytes), image.bytes, base, base + 32 * 512);
    label A:
    WriteFats(image, base, fatSectors, fat);
    SameOutsideTransitive(old(image.bytes), old@A(image.bytes), image.bytes, base, base + 32 * 512, base + 32 * 512,
      data);
    SameLength(old(image.bytes), image.bytes, base, data);
    HeadOutside(old@A(image.bytes), image.bytes, base + 32 * 512, data, base, boot);
    label B:
    WriteDirectories(image, data, |kernel|);
    SameOutsideTransitive(old(image.bytes), old@B(image.bytes), image.bytes, base, data, data, data + 1536);
    SameLength(old(image.bytes), image.bytes, base, data + 1536);
    HeadOutside(old@B(image.bytes), image.bytes, data, data + 1536, base, boot);
    TablesOutside(old@B(image.bytes), image.bytes, data, data + 1536, base, fat);
    label C:
    image.Write(data + 1536, kernel);
    WriteStaysInside(old@C(image.bytes), data + 1536, kernel, data + 1536, data + 1536 + |kernel|);
    SameOutsideTransitive(old(image.bytes), old@C(image.bytes), image.bytes, base, data + 1536, data + 1536,
      data + 1536 + |kernel|);
    WrittenHolds(old@C(image.bytes), data + 1536, kernel);
    HeadOutside(old@C(image.bytes), image.bytes, data + 1536, data + 1536 + |kernel|, base, boot);
    TablesOutside(old@C(image.bytes), image.bytes, data + 1536, data + 1536 + |kernel|, base, fat);
    WrittenElsewhere(old@C(image.bytes), data + 1536, kernel, data, RootDirectory());
    WrittenElsewhere(old@C(image.bytes), data + 1536, kernel, data + 512, EfiDirectory());
    WrittenElsewhere(old@C(image.bytes), data + 1536, kernel, data + 1024, BootDirectory(|kernel|));
  }

  // ----- reading back -----

  lemma BootReadsBack(bytes: seq<byte>, base: nat, first: u64, sectors: u64, fatSectors: nat)
    requires Holds(bytes, base, BootSector(first, sectors, fatSectors)) && fatSectors < TWO_32
    ensures base + 512 <= |bytes| && GeometryAt(bytes, base) == Geometry(base, 512, 512, 32, 2, fatSectors, 2)
  {
    hide LeBytes, Number, Pow2;
    Pow2At31();
    var boot := bytes[base..base + 512];
    assert boot == BootSector(first, sectors, fatSectors);
    var (start, sizes) := (BootStart(), BootSizes(first, sectors, fatSectors));
    Pow2At16();
    assert boot[11..13] == start[11..13] == LeBytes(512, 2);
    NumberAt(boot, 11, 2, 512);
    assert boot[13] == start[13] == 1;
    assert boot[14..16] == start[14..16] == LeBytes(32, 2);
    NumberAt(boot, 14, 2, 32);
    assert boot[16] == start[16] == 2;
    assert boot[36..40] == sizes[8..12] == LeBytes(fatSectors, 4);
    NumberAt(boot, 36, 4, fatSectors);
    assert boot[44..48] == sizes[16..20] == LeBytes(2, 4);
    NumberAt(boot, 44, 4, 2);
  }

  predicate Spells(bytes: seq<byte>, at: nat, text: string)
    requires at + |text| <= |bytes|
  {
    forall i :: 0 <= i < |text| ==> bytes[at + i] == text[i] as int
  }

  // The fields of the boot sector that the walk does not need but firmware looks at.

  lemma BootStartLayout()
    ensures var start := BootStart();
            && start[0..3] == [0xeb, 0x58, 0x90] && Spells(start, 3, "i3mlOS  ") && start[21] == 0xf8
            && (forall i :: 17 <= i < 21 || 22 <= i < 24 ==> start[i] == 0)
            && Number(start, 24, 2) == 32 && Number(start, 26, 2) == 8
  {
    hide LeBytes, Number, Pow2;
    Pow2At16();
    LittleZero();
    var start := BootStart();
    assert start[22..24] == LeBytes(0, 2);
    assert start[26..] == LeBytes(8, 2);
    assert start[26..28] == start[26..];
    assert start[24..26] == LeBytes(32, 2);
    NumberAt(start, 24, 2, 32);
    NumberAt(start, 26, 2, 8);
  }

  lemma BootSizesLayout(first: u64, sectors: u64, fatSectors: nat)
    ensures var sizes := BootSizes(first, sectors, fatSectors);
            && Number(sizes, 0, 4) == first % TWO_32 && Number(sizes, 4, 4) == sectors % TWO_32
            && sizes[12..16] == [0, 0, 0, 0] && Number(sizes, 20, 2) == 1 && Number(sizes, 22, 2) == 6
  {
    hide LeBytes, Number, Pow2;
    Pow2At31();
    Pow2At16();
    var sizes := BootSizes(first, sectors, fatSectors);
    assert sizes[0..4] == LeBytes(first % TWO_32, 4);
    assert sizes[4..8] == LeBytes(sectors % TWO_32, 4);
    NumberAt(sizes, 0, 4, first % TWO_32);
    NumberAt(sizes, 4, 4, sectors % TWO_32);
    assert sizes[20..22] == LeBytes(1, 2);
    assert sizes[22..] == LeBytes(6, 2);
    assert sizes[22..24] == sizes[22..];
    NumberAt(sizes, 20, 2, 1);
    NumberAt(sizes, 22, 2, 6);
  }

  lemma BootEndLayout()
    ensures var end := BootEnd();
            && (forall i :: 0 <= i < 12 ==> end[i] == 0) && end[12] == 0x80 && end[14] == 0x29
            && Number(end, 15, 4) == 0x1391_1391 && Spells(end, 19, "I3MLOS     ") && Spells(end, 30, "FAT32   ")
            && end[458..460] == [0x55, 0xaa]
  {
    hide LeBytes, Number, Pow2;
    Pow2At31();
    assert BootEnd()[15..19] == LeBytes(0x1391_1391, 4);
    NumberAt(BootEnd(), 15, 4, 0x1391_1391);
  }

  /**
   * The boot sector: jump, maker, media and track sizes; from byte 28 where the partition starts, how
   * long it is and where the other two sectors are; from byte 52 drive, label and signature.
   */
  lemma BootLayout(first: u64, sectors: u64, fatSectors: nat)
    ensures var boot := BootSector(first, sectors, fatSectors);
            && boot[0..3] == [0xeb, 0x58, 0x90] && Spells(boot[0..28], 3, "i3mlOS  ") && boot[21] == 0xf8
            && Number(boot[0..28], 24, 2) == 32 && Number(boot[0..28], 26, 2) == 8
            && Number(boot[28..52], 0, 4) == first % TWO_32 && Number(boot[28..52], 4, 4) == sectors % TWO_32
            && Number(boot[28..52], 20, 2) == 1 && Number(boot[28..52], 22, 2) == 6
            && boot[64] == 0x80 && boot[66] == 0x29 && Number(boot[52..512], 15, 4) == 0x1391_1391
            && Spells(boot[52..512], 19, "I3MLOS     ") && Spells(boot[52..512], 30, "FAT32   ")
            && boot[510..512] == [0x55, 0xaa]
  {
    hide Number, BootStart, BootSizes, BootEnd, Spells;
    BootStartLayout();
    BootSizesLayout(first, sectors, fatSectors);
    BootEndLayout();
    var boot := BootSector(first, sectors, fatSectors);
    assert boot[0..28] == BootStart() && boot[28..52] == BootSizes(first, sectors, fatSectors);
    assert boot[52..512] == BootEnd();
    assert boot[0..3] == boot[0..28][0..3] && boot[510..512] == boot[52..512][458..460];
    assert boot[21] == boot[0..28][21] && boot[64] == boot[52..512][12] && boot[66] == boot[52..512][14];
  }

  /** The information sector: three signatures, and nothing known of what is free. */
  lemma InfoLayout()
    ensures var info := InfoSector();
            && Number(info, 0, 4) == 0x4161_5252 && Number(info, 484, 4) == 0x6141_7272
            && Number(info, 488, 4) == 0xffff_ffff && Number(info, 492, 4) == 0xffff_ffff
            && info[508..510] == [0x55, 0xaa]
  {
    hide LeBytes, Number, Pow2;
    Pow2At31();
    var info := InfoSector();
    assert info[0..4] == LeBytes(0x4161_5252, 4) && info[484..488] == LeBytes(0x6141_7272, 4);
    NumberAt(info, 0, 4, 0x4161_5252);
    NumberAt(info, 484, 4, 0x6141_7272);
    AllOnes();
    assert info[488..492] == LeBytes(0xffff_ffff, 4) && info[492..496] == LeBytes(0xffff_ffff, 4);
    NumberAt(info, 488, 4, 0xffff_ffff);
    NumberAt(info, 492, 4, 0xffff_ffff);
  }

  lemma AllOnes()
    ensures LeBytes(0xffff_ffff, 4) == [0xff, 0xff, 0xff, 0xff]
  {
    assert LeBytes(0xff, 1) == [0xff] + LeBytes(0, 0);
    assert LeBytes(0xffff, 2) == [0xff] + LeBytes(0xff, 1);
    assert LeBytes(0xff_ffff, 3) == [0xff] + LeBytes(0xffff, 2);
  }

  /** The names that the walk looks up, in eight and three characters. */
  lemma NamesSpell()
    ensures Spells(EFI, 0, "EFI        ") && Spells(BOOT, 0, "BOOT       ") && Spells(BOOTX64, 0, "BOOTX64 EFI")
    ensures Spells(DOT, 0, ".          ") && Spells(DOT_DOT, 0, "..         ")
  {
  }

  lemma LittleZero()
    ensures LeBytes(0, 2) == [0, 0]
  {
    assert LeBytes(0, 0) == [];
  }

  lemma Pow2At16()
    ensures Pow2(16) == 0x1_0000
  {
    Pow2Add(8, 8);
    assert Pow2(8) == 0x100;
  }

  /** An entry on the disk is found under its name, if no entry before it has that name. */
  lemma EntryFound(bytes: seq<byte>, at: nat, i: nat, name: Name, attributes: byte, cluster: nat, size: nat)
    requires at + 512 <= |bytes| && i < 16 && cluster < 0x1_0000 && size < TWO_32
    requires Holds(bytes, at + 32 * i, DirectoryEntry(name, attributes, cluster, size))
    ensures Lookup(bytes, at, 16, name, i) == Some((cluster, size))
  {
    hide LeBytes, Number, Pow2;
    Pow2At31();
    Pow2At16();
    var entry := bytes[at + 32 * i..at + 32 * i + 32];
    assert entry == DirectoryEntry(name, attributes, cluster, size);
    assert entry[0..11] == name;
    assert entry[20..22] == LeBytes(0, 2);
    NumberAt(entry, 20, 2, 0);
    assert entry[26..28] == LeBytes(cluster, 2);
    NumberAt(entry, 26, 2, cluster);
    assert entry[28..32] == LeBytes(size, 4);
    NumberAt(entry, 28, 4, size);
  }

  lemma EntryPassed(bytes: seq<byte>, at: nat, i: nat, name: Name, other: Name, attributes: byte, cluster: nat,
        size: nat)
    requires at + 512 <= |bytes| && i < 16 && other != name
    requires Holds(bytes, at + 32 * i, DirectoryEntry(other, attributes, cluster, size))
    ensures Lookup(bytes, at, 16, name, i) == Lookup(bytes, at, 16, name, i + 1)
  {
    hide LeBytes, Number;
    var entry := bytes[at + 32 * i..at + 32 * i + 32];
    assert entry == DirectoryEntry(other, attributes, cluster, size);
    assert entry[0..11] == other;
  }

  /** Past the two dot entries. */
  lemma ThirdEntryFound(bytes: seq<byte>, at: nat, name: Name, up: nat, self: nat, attributes: byte, cluster: nat,
        size: nat)
    requires at + 512 <= |bytes| && cluster < 0x1_0000 && size < TWO_32 && name != DOT && name != DOT_DOT
    requires Holds(bytes, at, DirectoryEntry(DOT, 0x10, self, 0) + DirectoryEntry(DOT_DOT, 0x10, up, 0) +
              DirectoryEntry(name, attributes, cluster, size))
    ensures Lookup(bytes, at, 16, name, 0) == Some((cluster, size))
  {
    hide DirectoryEntry, Lookup;
    var (a, b, c) := (DirectoryEntry(DOT, 0x10, self, 0), DirectoryEntry(DOT_DOT, 0x10, up, 0),
      DirectoryEntry(name, attributes, cluster, size));
    HoldsSplit(bytes, at, a + b, c);
    HoldsSplit(bytes, at, a, b);
    EntryPassed(bytes, at, 0, name, DOT, 0x10, self, 0);
    EntryPassed(bytes, at, 1, name, DOT_DOT, 0x10, up, 0);
    EntryFound(bytes, at, 2, name, attributes, cluster, size);
  }

  lemma NamesDiffer()
    ensures BOOT != DOT && BOOT != DOT_DOT && BOOTX64 != DOT && BOOTX64 != DOT_DOT
  {
    assert BOOT[0] == 0x42 && BOOTX64[0] == 0x42 && DOT[0] == 0x2e && DOT_DOT[0] == 0x2e;
  }

  /** The chain from cluster `5 + i` to its end is the rest of the file's clusters. */
  lemma {:induction false} ChainReadsBack(bytes: seq<byte>, base: nat, fatSectors: nat, fat: seq<byte>, k: nat, i: nat)
    requires k > 0 && 5 + k < 0x0fff_fff8 && i < k && FatHolds(fat, 5 + k, k)
    requires Holds(bytes, base + 32 * 512, fat)
    requires base + DataStart(fatSectors) + 1536 + 512 * k <= |bytes|
    ensures var data := base + DataStart(fatSectors) + 1536;
            Chain(bytes, Geometry(base, 512, 512, 32, 2, fatSectors, 2), 5 + i, k - i) ==
              Some(bytes[data + 512 * i..data + 512 * k])
    decreases k - i
  {
    hide LeBytes, Number, FatHolds;
    var g := Geometry(base, 512, 512, 32, 2, fatSectors, 2);
    var data := base + DataStart(fatSectors) + 1536;
    NextCluster(bytes, base, fat, k, 5 + i);
    assert ClusterAt(g, 5 + i) == data + 512 * i;
    if i + 1 < k {
      ChainReadsBack(bytes, base, fatSectors, fat, k, i + 1);
      assert bytes[data + 512 * i..data + 512 * i + 512] +
        bytes[data + 512 * (i + 1)..data + 512 * k] == bytes[data + 512 * i..data + 512 * k];
    }
  }

  /** The table entry on the disk is the one that was built. */
  lemma NextCluster(bytes: seq<byte>, base: nat, fat: seq<byte>, k: nat, cluster: nat)
    requires k > 0 && cluster < 5 + k < 0x0fff_fff8 && FatHolds(fat, 5 + k, k) && Holds(bytes, base + 32 * 512, fat)
    ensures base + 32 * 512 + cluster * 4 + 4 <= |bytes|
    ensures Number(bytes, base + 32 * 512 + cluster * 4, 4) == FatValue(cluster, k)
  {
    hide LeBytes, Number, FatValue, Pow2;
    Pow2At31();
    assert FatHas(fat, cluster, FatValue(cluster, k));
    HeldPart(bytes, base + 32 * 512, fat, cluster * 4, 4);
    NumberAt(bytes, base + 32 * 512 + cluster * 4, 4, FatValue(cluster, k));
  }

  lemma EntriesLead(bytes: seq<byte>, data: nat, size: nat)
    requires data + 1536 <= |bytes| && size < TWO_32
    requires Holds(bytes, data, RootDirectory()) && Holds(bytes, data + 512, EfiDirectory())
    requires Holds(bytes, data + 1024, BootDirectory(size))
    ensures Lookup(bytes, data, 16, EFI, 0) == Some((3, 0))
    ensures Lookup(bytes, data + 512, 16, BOOT, 0) == Some((4, 0))
    ensures Lookup(bytes, data + 1024, 16, BOOTX64, 0) == Some((5, size))
  {
    hide DirectoryEntry, Lookup;
    EntryFound(bytes, data, 0, EFI, 0x10, 3, 0);
    NamesDiffer();
    ThirdEntryFound(bytes, data + 512, BOOT, 0, 3, 0x10, 4, 0);
    ThirdEntryFound(bytes, data + 1024, BOOTX64, 3, 4, 0x20, 5, size);
  }

  /** From the boot sector each directory leads to the next, and the last to the kernel's first cluster. */
  lemma DirectoriesLead(bytes: seq<byte>, base: nat, first: u64, sectors: u64, fatSectors: nat, fat: seq<byte>,
        kernel: seq<byte>)
    requires HasFileSystem(bytes, base, BootSector(first, sectors, fatSectors), fatSectors, fat, kernel)
    requires fatSectors < TWO_32 && |kernel| < TWO_32 && base + DataStart(fatSectors) + 1536 <= |bytes|
    ensures base + 512 <= |bytes| && GeometryAt(bytes, base) == Geometry(base, 512, 512, 32, 2, fatSectors, 2)
    ensures var data := base + DataStart(fatSectors);
            && Lookup(bytes, data, 16, EFI, 0) == Some((3, 0))
            && Lookup(bytes, data + 512, 16, BOOT, 0) == Some((4, 0))
            && Lookup(bytes, data + 1024, 16, BOOTX64, 0) == Some((5, |kernel|))
  {
    hide Lookup, BootSector, GeometryAt, HasTables, InfoSector, RootDirectory, EfiDirectory, BootDirectory;
    var data := base + DataStart(fatSectors);
    BootReadsBack(bytes, base, first, sectors, fatSectors);
    EntriesLead(bytes, data, |kernel|);
  }

  /** Walking from the boot sector through the directories and the chain yields exactly the kernel. */
  lemma KernelReadsBack(bytes: seq<byte>, base: nat, first: u64, sectors: u64, fatSectors: nat, fat: seq<byte>,
        kernel: seq<byte>)
    requires HasFileSystem(bytes, base, BootSector(first, sectors, fatSectors), fatSectors, fat, kernel)
    requires var k := KernelClusters(|kernel|);
             && fatSectors < TWO_32 && |kernel| < TWO_32 && 5 + k < 0x0fff_fff8 && FatHolds(fat, 5 + k, k)
             && base + DataStart(fatSectors) + 1536 + 512 * k <= |bytes|
    ensures base + 512 <= |bytes| && ReadKernel(bytes, base, KernelClusters(|kernel|)) == Some(kernel)
  {
    hide Lookup, BootSector, GeometryAt, Chain, FatHolds, RootDirectory, EfiDirectory, BootDirectory, HasHead;
    var (k, data) := (KernelClusters(|kernel|), base + DataStart(fatSectors));
    DirectoriesLead(bytes, base, first, sectors, fatSectors, fat, kernel);
    var g := Geometry(base, 512, 512, 32, 2, fatSectors, 2);
    assert ClusterAt(g, 2) == data && ClusterAt(g, 3) == data + 512 && ClusterAt(g, 4) == data + 1024;
    ChainReadsBack(bytes, base, fatSectors, fat, k, 0);
    assert bytes[data + 1536..data + 1536 + 512 * k][..|kernel|] == bytes[data + 1536..data + 1536 + |kernel|];
  }

  /** The kernel, the three directories before it, and the last cluster in full stay in the data area. */
  predicate KernelFits(length: nat, dataSectors: nat) {
    3 + KernelClusters(length) <= dataSectors
  }

  /** The bytes that the data area has for the kernel. */
  function Room(dataSectors: nat): nat {
    if dataSectors < 3 then 0 else (dataSectors - 3) * 512
  }

  /** Where the kernel starts on the disk. */
  function KernelStart(first: nat, fatSectors: nat): nat {
    first * 512 + DataStart(fatSectors) + 1536
  }

  /**
   * The partition: a table of the right size and a file system with one file, or an error. The
   * kernel is written whole wherever it starts; what has no room in the partition lands behind it.
   */
  method WriteFat32(image: DiskBytes, first: u64, sectors: u64, kernel: seq<byte>) returns (r: Result<(), FatFault>)
    requires 34 <= sectors <= 0x0fff_ff00 && (first + sectors) * 512 <= |image.bytes|
    modifies image
    ensures |image.bytes| == |old(image.bytes)|
    ensures var (fat, data) := (FatFor(Round(sectors - 32, 7)), Round(sectors - 32, 8));
            && (r.Err? ==> image.bytes == old(image.bytes))
            && (r == Err(TooSmall(data)) <==> data < 65525)
            && (r.Ok? <==>
                  && data >= 65525 && 5 + KernelClusters(|kernel|) <= 128 * fat
                  && KernelStart(first, fat) + |kernel| <= |image.bytes|)
            && (data >= 65525 && KernelFits(|kernel|, data) ==> r.Ok?)
            && (r.Ok? ==>
                  && Holds(image.bytes, KernelStart(first, fat), kernel)
                  && SameOutside(old(image.bytes), image.bytes, first * 512, KernelStart(first, fat) + |kernel|)
                  && (Room(data) <= |kernel| ==> Holds(image.bytes, (first + sectors) * 512, kernel[Room(data)..])))
            && (|kernel| > 0 && data >= 65525 ==> (Room(data) < |kernel| <==> !KernelFits(|kernel|, data)))
            && (r.Ok? && KernelFits(|kernel|, data) ==>
                  && SameOutside(old(image.bytes), image.bytes, first * 512, (first + sectors) * 512)
                  && HasHead(image.bytes, first * 512, BootSector(first, sectors, fat))
                  && (exists table :: |table| == 512 * fat && HasTables(image.bytes, first * 512, table))
                  && (|kernel| < TWO_32 ==>
                       ReadKernel(image.bytes, first * 512, KernelClusters(|kernel|)) == Some(kernel)))
  {
    hide FatFor, Round, CeilDiv, KernelClusters, HasFileSystem, HasHead, HasTables, FatHolds, BootSector, ReadKernel;
    hide SameOutside;
    var fatSectors, dataSectors := SizeFat(sectors);
    if dataSectors < MINIMUM_CLUSTERS {
      return Err(TooSmall(dataSectors));
    }
    var base := first * 512;
    var k := KernelClusters(|kernel|);
    FitIsEnough(fatSectors, dataSectors, sectors, k, |kernel|);
    RoomEnds(first, sectors, fatSectors, dataSectors, |kernel|);
    TableStaysShort(sectors - 32, Round(sectors - 32, 7));
    if 5 + k > 128 * fatSectors || base + DataStart(fatSectors) + 1536 + |kernel| > |image.bytes| {
      return Err(FatFault.Panics);
    }
    var fat := BuildFat(fatSectors, k);
    WriteAll(image, base, BootSector(first, sectors, fatSectors), fatSectors, fat, kernel);
    SameLength(old(image.bytes), image.bytes, base, base + DataStart(fatSectors) + 1536 + |kernel|);
    HeadAndTables(image.bytes, base, BootSector(first, sectors, fatSectors), fatSectors, fat, kernel);
    KernelHeld(image.bytes, base, BootSector(first, sectors, fatSectors), fatSectors, fat, kernel);
    if Room(dataSectors) <= |kernel| {
      HeldRest(image.bytes, KernelStart(first, fatSectors), kernel, Room(dataSectors));
    }
    if KernelFits(|kernel|, dataSectors) {
      SameOutsideWider(old(image.bytes), image.bytes, base, base + DataStart(fatSectors) + 1536 + |kernel|,
        (first + sectors) * 512);
      SameLength(old(image.bytes), image.bytes, base, (first + sectors) * 512);
      if |kernel| < TWO_32 {
        KernelReadsBack(image.bytes, base, first, sectors, fatSectors, fat, kernel);
      }
    }
    return Ok(());
  }

  /** Within 28-bit cluster numbers. */
  lemma TableStaysShort(n: nat, data: nat)
    requires n >= 2 && data <= n - 2
    ensures 128 * FatFor(data) <= n + 127
  {
  }

  lemma FitIsEnough(fatSectors: nat, dataSectors: nat, sectors: nat, k: nat, length: nat)
    requires RESERVED + FATS * fatSectors + dataSectors == sectors < TWO_32 && CoversClusters(fatSectors, dataSectors)
    requires k == KernelClusters(length)
    ensures 3 + k <= dataSectors ==>
              5 + k <= 128 * fatSectors && DataStart(fatSectors) + 1536 + 512 * k <= sectors * 512
    ensures fatSectors < TWO_32
  {
  }

  lemma SameOutsideWider(a: seq<byte>, b: seq<byte>, low: nat, high: nat, more: nat)
    requires SameOutside(a, b, low, high) && high <= more <= |a|
    ensures SameOutside(a, b, low, more)
  {
    assert a[more..] == a[high..][more - high..];
    assert b[more..] == b[high..][more - high..];
  }

  /** The room ends where the partition does, and holds a kernel exactly if its clusters fit. */
  lemma RoomEnds(first: nat, sectors: nat, fatSectors: nat, dataSectors: nat, length: nat)
    requires RESERVED + FATS * fatSectors + dataSectors == sectors && dataSectors >= 3
    ensures KernelStart(first, fatSectors) + Room(dataSectors) == (first + sectors) * 512
    ensures length > 0 ==> (Room(dataSectors) < length <==> !KernelFits(length, dataSectors))
  {
  }

  lemma KernelHeld(bytes: seq<byte>, base: nat, boot: Sector, fatSectors: nat, fat: seq<byte>, kernel: seq<byte>)
    requires HasFileSystem(bytes, base, boot, fatSectors, fat, kernel)
    ensures Holds(bytes, base + DataStart(fatSectors) + 1536, kernel)
  {
    hide HasHead, HasTables;
  }

  lemma HeldRest(bytes: seq<byte>, at: nat, data: seq<byte>, skip: nat)
    requires Holds(bytes, at, data) && skip <= |data|
    ensures Holds(bytes, at + skip, data[skip..])
  {
    assert data == data[..skip] + data[skip..];
    HoldsSplit(bytes, at, data[..skip], data[skip..]);
  }

  // ----- the whole image -----

  const ESP_TYPE: Guid := [0x28, 0x73, 0x2a, 0xc1, 0x1f, 0xf8, 0xd2, 0x11, 0xba, 0x4b, 0x00, 0xa0, 0xc9, 0x3e, 0xc9,
    0x3b]
  const JOURNAL_TYPE: Guid := [0x6c, 0x6d, 0x33, 0x69, 0x53, 0x00, 0x4c, 0x4a, 0xa1, 0x00, 0x69, 0x33, 0x6d, 0x6c,
    0x4f, 0x53]

  /** The numbers those bytes stand for: the first three little-endian, the last eight as they are. */
  lemma TypeGuids()
    ensures Number(ESP_TYPE, 0, 4) == 0xc12a_7328 && Number(ESP_TYPE, 4, 2) == 0xf81f
    ensures Number(ESP_TYPE, 6, 2) == 0x11d2
    ensures ESP_TYPE[8..16] == [0xba, 0x4b, 0x00, 0xa0, 0xc9, 0x3e, 0xc9, 0x3b]
    ensures Number(JOURNAL_TYPE, 0, 4) == 0x6933_6d6c && Number(JOURNAL_TYPE, 4, 2) == 0x0053
    ensures Number(JOURNAL_TYPE, 6, 2) == 0x4a4c && JOURNAL_TYPE[8..16] == [0xa1, 0x00] + JOURNAL_TYPE[10..16]
    ensures Spells(JOURNAL_TYPE, 10, "i3mlOS")
  {
    ShortNumbers(ESP_TYPE);
    ShortNumbers(JOURNAL_TYPE);
    hide Number;
  }

  lemma ShortNumbers(g: Guid)
    ensures Number(g, 0, 4) == Pair(g[0], g[1]) + 0x1_0000 * Pair(g[2], g[3])
    ensures Number(g, 4, 2) == Pair(g[4], g[5]) && Number(g, 6, 2) == Pair(g[6], g[7])
  {
    PairValue(g[4..6]);
    PairValue(g[6..8]);
    var a := g[0..4];
    PairValue(a[2..]);
    assert a[1..][1..] == a[2..];
    FirstOfMany(a);
    FirstOfMany(a[1..]);
  }

  lemma FirstOfMany(bytes: seq<byte>)
    requires bytes != []
    ensures LeValue(bytes) == bytes[0] as int + 0x100 * LeValue(bytes[1..])
  {
  }

  function Pair(low: int, high: int): int {
    low + 0x100 * high
  }

  lemma PairValue(bytes: seq<byte>)
    requires |bytes| == 2
    ensures LeValue(bytes) == Pair(bytes[0], bytes[1])
  {
    assert bytes[1..][1..] == [];
  }

  const ESP_FIRST: nat := 2048
  const ESP_SECTORS: nat := 98304
  const JOURNAL_FIRST: nat := 100352

  function Parts(total: nat): seq<PartitionSpec>
    requires 34 <= total < TWO_64
  {
    [ PartitionSpec(ESP_TYPE, 2048, 100351, [0x45, 0x46, 0x49, 0x20, 0x53, 0x79, 0x73, 0x74, 0x65, 0x6d]),
      PartitionSpec(JOURNAL_TYPE, 100352, total - 34,
        [0x69, 0x33, 0x6d, 0x6c, 0x20, 0x6a, 0x6f, 0x75, 0x72, 0x6e, 0x61, 0x6c]) ]
  }

  /** What the two partitions are called. */
  lemma PartNames(total: nat)
    requires 34 <= total < TWO_64
    ensures |Parts(total)[0].name| == 10 && |Parts(total)[1].name| == 12
    ensures forall i :: 0 <= i < 10 ==> Parts(total)[0].name[i] == "EFI System"[i] as int
    ensures forall i :: 0 <= i < 12 ==> Parts(total)[1].name[i] == "i3ml journal"[i] as int
  {
  }

  lemma HeldAbove(a: seq<byte>, b: seq<byte>, low: nat, high: nat, at: nat, part: seq<byte>)
    requires SameOutside(a, b, low, high) && Holds(a, at, part) && high <= at
    ensures Holds(b, at, part)
  {
    forall i | at <= i < at + |part| ensures a[i] == b[i] {
      assert a[i] == a[high..][i - high] && b[i] == b[high..][i - high];
    }
    assert a[at..at + |part|] == b[at..at + |part|];
  }

  /** Writing one partition leaves the table around it alone. */
  lemma TableSurvives(a: seq<byte>, b: seq<byte>, parts: seq<PartitionSpec>, low: nat, high: nat)
    requires HasGpt(a, parts) && SameOutside(a, b, low * 512, high * 512)
    requires 34 <= low && high <= |a| / 512 - 33
    ensures HasGpt(b, parts)
  {
    hide HeaderSector, EntryArray, Crc, ProtectiveMbr;
    var (total, entries) := (|a| / 512, EntryArray(parts, 128));
    HeldOutside(a, b, low * 512, high * 512, 0, ProtectiveMbr(total - 1));
    HeldOutside(a, b, low * 512, high * 512, 512, HeaderSector(1, total - 1, total - 34, 2, Crc(entries)));
    HeldOutside(a, b, low * 512, high * 512, 1024, entries);
    HeldAbove(a, b, low * 512, high * 512, (total - 33) * 512, entries);
    HeldAbove(a, b, low * 512, high * 512, (total - 1) * 512,
      HeaderSector(total - 1, 1, total - 34, total - 33, Crc(entries)));
  }

  lemma TypesDiffer()
    ensures ESP_TYPE != JOURNAL_TYPE && ESP_TYPE != Repeat(16, 0 as byte) && JOURNAL_TYPE != Repeat(16, 0 as byte)
  {
    assert ESP_TYPE[0] == 0x28 && JOURNAL_TYPE[0] == 0x6c && Repeat(16, 0 as byte)[0] == 0;
  }

  lemma PartsFound(total: nat)
    requires JOURNAL_FIRST < total - 34 < TWO_64 - 34
    ensures InRange(Parts(total), total)
    ensures Expected(Parts(total), ESP_TYPE, 0) == Ok(Partition(ESP_TYPE, 2048, 100351))
    ensures Expected(Parts(total), JOURNAL_TYPE, 0) == Ok(Partition(JOURNAL_TYPE, 100352, total - 34))
  {
    TypesDiffer();
    assert Expected(Parts(total), JOURNAL_TYPE, 1).Ok?;
  }

  /** Firmware can boot the image, and the kernel can find its journal on it. */
  ghost predicate Bootable(bytes: seq<byte>, total: nat, kernel: seq<byte>) {
    && 512 * total == |bytes| && 100352 <= total
    && FindIn(Sectors(bytes), ESP_TYPE) == Ok(Partition(ESP_TYPE, 2048, 100351))
    && FindIn(Sectors(bytes), JOURNAL_TYPE) == Ok(Partition(JOURNAL_TYPE, 100352, total - 34))
    && ReadKernel(bytes, ESP_FIRST * 512, KernelClusters(|kernel|)) == Some(kernel)
  }

  lemma BuiltIsBootable(a: seq<byte>, b: seq<byte>, total: nat, kernel: seq<byte>)
    requires JOURNAL_FIRST < total - 34 < TWO_64 - 34 && |a| == 512 * total && HasGpt(a, Parts(total))
    requires SameOutside(a, b, ESP_FIRST * 512, (ESP_FIRST + ESP_SECTORS) * 512)
    requires |b| == |a| && ReadKernel(b, ESP_FIRST * 512, KernelClusters(|kernel|)) == Some(kernel)
    ensures Bootable(b, total, kernel)
  {
    hide HasGpt, FindIn, ReadKernel, Sectors, Parts, Expected, InRange, SameOutside;
    TableSurvives(a, b, Parts(total), ESP_FIRST, ESP_FIRST + ESP_SECTORS);
    PartsFound(total);
    TypesDiffer();
    FewParts(total);
    FindAgreesWithBuilder(b, Parts(total), ESP_TYPE);
    FindAgreesWithBuilder(b, Parts(total), JOURNAL_TYPE);
  }

  lemma FewParts(total: nat)
    requires 34 <= total < TWO_64
    ensures |Parts(total)| == 2
  {
  }

  /**
   * Table, file system, and what is left for the journal; or none, if it does not fit. A kernel of
   * up to six clusters too many for its partition is accepted all the same, and then the first
   * sectors of the journal partition are its last bytes.
   */
  method Build(megabytes: nat, kernel: seq<byte>) returns (r: Option<DiskBytes>)
    requires 0 < megabytes < 0x1_0000_0000
    ensures r.Some? <==> megabytes > 49 && KernelClusters(|kernel|) <= 96763
    ensures KernelFits(|kernel|, 96760) <==> KernelClusters(|kernel|) <= 96757
    ensures r.Some? ==> fresh(r.value) && |r.value.bytes| == megabytes * 1024 * 1024
    ensures r.Some? && KernelFits(|kernel|, 96760) ==> Bootable(r.value.bytes, megabytes * 2048, kernel)
    ensures r.Some? && !KernelFits(|kernel|, 96760) ==>
              Room(96760) < |kernel| && Holds(r.value.bytes, JOURNAL_FIRST * 512, kernel[Room(96760)..])
  {
    hide HasGpt, FindIn, ReadKernel, Parts, SameOutside, KernelClusters, Bootable, Round, FatFor;
    var total := megabytes * 2048;
    var image := new DiskBytes(total);
    var journalLast := total - 34;
    if journalLast <= JOURNAL_FIRST {
      return None;
    }
    FewParts(total);
    image.WriteGpt(Parts(total));
    label Tabled:
    EspSizes();
    EspBounds(|kernel|);
    var written := WriteFat32(image, ESP_FIRST, ESP_SECTORS, kernel);
    if written.Err? {
      return None;
    }
    if KernelFits(|kernel|, 96760) {
      ShortKernel(|kernel|);
      SameLength(old@Tabled(image.bytes), image.bytes, ESP_FIRST * 512, (ESP_FIRST + ESP_SECTORS) * 512);
      BuiltIsBootable(old@Tabled(image.bytes), image.bytes, total, kernel);
    }
    return Some(image);
  }

  lemma EspBounds(length: nat)
    ensures 5 + KernelClusters(length) <= 128 * 756 <==> KernelClusters(length) <= 96763
    ensures KernelClusters(length) <= 96763 ==> KernelStart(ESP_FIRST, 756) + length <= 50 * 1024 * 1024
    ensures !KernelFits(length, 96760) ==> length > 0
  {
  }

  lemma ShortKernel(length: nat)
    requires KernelFits(length, 96760)
    ensures length < TWO_32
  {
  }

  /** The iteration settles at once for the partition the image has. */
  lemma EspSizes()
    ensures FatFor(Round(ESP_SECTORS - 32, 7)) == 756 && Round(ESP_SECTORS - 32, 8) == 96760
  {
    assert Round(98272, 0) == 96736;
    RoundSettles(0);
    RoundSettles(7);
    RoundSettles(8);
  }

  lemma {:induction false} RoundSettles(k: nat)
    ensures Round(98272, k) == if k == 0 then 96736 else 96760
  {
    assert FatFor(98270) == 768 && FatFor(96736) == 756 && FatFor(96760) == 756;
    hide FatFor;
    if k > 0 {
      RoundSettles(k - 1);
    }
  }
}
