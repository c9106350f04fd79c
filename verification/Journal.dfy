/**
 * The hash-chained log on a block device. The functions say what a disk image means; the class is
 * the code that writes it, on a device that may refuse any read or write, one sector at a time.
 */
module Journal {
  import opened Basics
  import Sha256

  const MAX_RECORDS: nat := 0x10_0000
  const MAGIC: seq<byte> := [0x69, 0x33, 0x6d, 0x6c, 0x53, 0x4a, 0x4c, 0x31]

  datatype Fields = Fields(sequence: u64, at: u64, agent: u32, event: byte, detail: u64, text: seq<byte>,
        labelLength: byte)

  /** Records as `Record::new` makes them: a full label buffer, and a length that stays inside it. */
  type Record = r: Fields | |r.text| == 40 && r.labelLength <= 40
    witness Fields(0, 0, 0, 0, 0, Repeat(40, 0 as byte), 0)

  type Hash = h: seq<byte> | |h| == 32 witness Repeat(32, 0 as byte)

  type Sector = s: seq<byte> | |s| == 512 witness Repeat(512, 0 as byte)

  type Image = seq<Sector>

  datatype Fault = NoJournal | ChainBroken(index: nat) | Device | Full

  const ZERO_HASH: Hash := Repeat(32, 0 as byte)

  // ----- records -----

  /** The bytes the hash covers: everything about the record except the hash itself. */
  function FieldBytes(r: Record): (out: seq<byte>)
    ensures |out| == 72
  {
    LeBytes(r.sequence, 8) + LeBytes(r.at, 8) + LeBytes(r.agent, 4) + [r.event, r.labelLength, 0, 0]
      + LeBytes(r.detail, 8) + r.text
  }

  function HashOf(r: Record, previous: Hash): Hash {
    Sha256.Hash(previous + FieldBytes(r))
  }

  function Encode(r: Record, previous: Hash): (out: seq<byte>)
    ensures |out| == 128
  {
    FieldBytes(r) + HashOf(r, previous) + Repeat(24, 0 as byte)
  }

  datatype Stored = Stored(record: Record, hash: Hash)

  function Le64(bytes: seq<byte>): u64
    requires |bytes| == 8
  {
    Pow2At63();
    LeValue(bytes)
  }

  function Le32(bytes: seq<byte>): u32
    requires |bytes| == 4
  {
    Pow2At31();
    LeValue(bytes)
  }

  function Decode(bytes: seq<byte>): Option<Stored>
    requires |bytes| == 128
  {
    if bytes[21] > 40 then None
    else
      Some(Stored(
        Fields(Le64(bytes[0..8]), Le64(bytes[8..16]), Le32(bytes[16..20]), bytes[20], Le64(bytes[24..32]),
          bytes[32..72], bytes[21]),
        bytes[72..104]))
  }

  lemma Le64RoundTrip(x: u64)
    ensures Le64(LeBytes(x, 8)) == x
  {
    Pow2At63();
    LeRoundTrip(x, 8);
  }

  lemma Le32RoundTrip(x: u32)
    ensures Le32(LeBytes(x, 4)) == x
  {
    Pow2At31();
    LeRoundTrip(x, 4);
  }

  /** Whatever follows them, 72 field bytes and a hash read back as the record and that hash. */
  lemma DecodesBack(r: Record, hash: Hash, rest: seq<byte>)
    requires |rest| == 24
    ensures Decode(FieldBytes(r) + hash + rest) == Some(Stored(r, hash))
  {
    hide LeBytes, Le64, Le32;
    var bytes := FieldBytes(r) + hash + rest;
    assert bytes[0..8] == LeBytes(r.sequence, 8);
    assert bytes[8..16] == LeBytes(r.at, 8);
    assert bytes[16..20] == LeBytes(r.agent, 4);
    assert bytes[24..32] == LeBytes(r.detail, 8);
    assert bytes[32..72] == r.text;
    assert bytes[72..104] == hash;
    Le64RoundTrip(r.sequence);
    Le64RoundTrip(r.at);
    Le32RoundTrip(r.agent);
    Le64RoundTrip(r.detail);
  }

  lemma FieldLayout(r: Record)
    ensures var out := FieldBytes(r);
            && LeValue(out[0..8]) == r.sequence && LeValue(out[8..16]) == r.at && LeValue(out[16..20]) == r.agent
            && out[20] == r.event && out[21] == r.labelLength && out[22] == 0 && out[23] == 0
            && LeValue(out[24..32]) == r.detail && out[32..72] == r.text
  {
    hide LeBytes, LeValue, Pow2;
    var out := FieldBytes(r);
    Pow2At31();
    Pow2At63();
    LeRoundTrip(r.sequence, 8);
    LeRoundTrip(r.at, 8);
    LeRoundTrip(r.agent, 4);
    LeRoundTrip(r.detail, 8);
    assert out[0..8] == LeBytes(r.sequence, 8);
    assert out[8..16] == LeBytes(r.at, 8);
    assert out[16..20] == LeBytes(r.agent, 4);
    assert out[24..32] == LeBytes(r.detail, 8);
  }

  /** Where a record's 128 bytes say what, each number with its least significant byte first. */
  lemma RecordLayout(r: Record, previous: Hash)
    ensures var out := Encode(r, previous);
            && LeValue(out[0..8]) == r.sequence && LeValue(out[8..16]) == r.at && LeValue(out[16..20]) == r.agent
            && out[20] == r.event && out[21] == r.labelLength && out[22] == 0 && out[23] == 0
            && LeValue(out[24..32]) == r.detail && out[32..72] == r.text
            && out[72..104] == Sha256.Hash(previous + out[..72]) && out[104..] == Repeat(24, 0 as byte)
  {
    hide FieldBytes, LeValue, Sha256.Hash;
    FieldLayout(r);
    var out, fields := Encode(r, previous), FieldBytes(r);
    assert out[..72] == fields;
    assert out[0..8] == fields[0..8] && out[8..16] == fields[8..16] && out[16..20] == fields[16..20];
    assert out[24..32] == fields[24..32] && out[32..72] == fields[32..72];
  }

  lemma FieldsDetermineRecord(r: Record, t: Record)
    requires FieldBytes(r) == FieldBytes(t)
    ensures r == t
  {
    DecodesBack(r, ZERO_HASH, Repeat(24, 0 as byte));
    DecodesBack(t, ZERO_HASH, Repeat(24, 0 as byte));
  }

  /** The hash after a whole log. */
  function Chain(log: seq<Record>): Hash {
    if log == [] then ZERO_HASH else HashOf(log[|log| - 1], Chain(log[..|log| - 1]))
  }

  lemma ChainGrows(log: seq<Record>, record: Record)
    ensures Chain(log + [record]) == HashOf(record, Chain(log))
  {
    hide HashOf;
    assert (log + [record])[..|log|] == log;
  }

  // ----- images -----

  datatype Superblock = Superblock(count: u64, tip: Hash)

  function EncodeSuperblock(s: Superblock): Sector {
    MAGIC + LeBytes(s.count, 8) + s.tip + Repeat(464, 0 as byte)
  }

  function DecodeSuperblock(sector: Sector): Option<Superblock> {
    if sector[0..8] != MAGIC then None else Some(Superblock(Le64(sector[8..16]), sector[16..48]))
  }

  lemma SuperblockDecodesBack(s: Superblock)
    ensures DecodeSuperblock(EncodeSuperblock(s)) == Some(s)
  {
    hide LeBytes, Le64;
    var sector := EncodeSuperblock(s);
    assert sector[0..8] == MAGIC;
    assert sector[8..16] == LeBytes(s.count, 8);
    assert sector[16..48] == s.tip;
    Le64RoundTrip(s.count);
  }

  /** Sector 0 starts with the name of the format, then the count and the tip. */
  lemma SuperblockLayout(s: Superblock)
    ensures var out := EncodeSuperblock(s);
            && (forall i :: 0 <= i < 8 ==> out[i] == "i3mlSJL1"[i] as int)
            && LeValue(out[8..16]) == s.count && out[16..48] == s.tip && out[48..] == Repeat(464, 0 as byte)
  {
    hide LeBytes, LeValue;
    Pow2At63();
    LeRoundTrip(s.count, 8);
    assert EncodeSuperblock(s)[8..16] == LeBytes(s.count, 8);
  }

  /**
   * What the source computes with saturating 64-bit arithmetic before taking the minimum: every
   * slot below it lies on the disk, and short of 2^20 records the next one no longer does.
   */
  function RecordCapacity(sectorCount: nat): (c: nat)
    ensures c <= 0x10_0000
    ensures forall i :: 0 <= i < c ==> 1 + i / 4 < sectorCount
    ensures c < 0x10_0000 ==> 1 + c / 4 >= sectorCount
  {
    var after := if sectorCount == 0 then 0 else sectorCount - 1;
    if after * 4 < MAX_RECORDS then after * 4 else MAX_RECORDS
  }

  function ReadRecord(image: Image, index: nat): Result<Stored, Fault> {
    var sector := 1 + index / 4;
    var slot := index % 4;
    if sector >= |image| then Err(Device)
    else
      match Decode(image[sector][slot * 128..(slot + 1) * 128])
      case None => Err(ChainBroken(index))
      case Some(stored) => Ok(stored)
  }

  /** Follow the chain from `index` to `count`, starting from hash `previous`. */
  function Walk(image: Image, index: nat, count: nat, previous: Hash): Result<Hash, Fault>
    requires index <= count
    decreases count - index
  {
    if index == count then Ok(previous)
    else
      var stored :- ReadRecord(image, index);
      if HashOf(stored.record, previous) != stored.hash then Err(ChainBroken(index))
      else Walk(image, index + 1, count, stored.hash)
  }

  function Verify(image: Image): Result<Superblock, Fault> {
    if |image| == 0 then Err(Device)
    else
      match DecodeSuperblock(image[0])
      case None => Err(NoJournal)
      case Some(superblock) =>
        if superblock.count > RecordCapacity(|image|) then Err(ChainBroken(0))
        else
          var tip :- Walk(image, 0, superblock.count, ZERO_HASH);
          if tip != superblock.tip then Err(ChainBroken(superblock.count)) else Ok(superblock)
  }

  // ----- which images a log can be recovered from -----

  /** The first `n` slots of the image hold the first `n` records, each with its link. */
  ghost predicate HoldsLog(image: Image, log: seq<Record>, n: nat) {
    && n <= |log|
    && forall i :: 0 <= i < n ==> ReadRecord(image, i) == Ok(Stored(log[i], Chain(log[..i + 1])))
  }

  /** The superblock vouches for a prefix of the log that leaves out nothing promised. */
  ghost predicate Recoverable(image: Image, log: seq<Record>, promised: nat) {
    && |image| > 0
    && exists c: u64 :: RecoversTo(image, log, promised, c)
  }

  ghost predicate RecoversTo(image: Image, log: seq<Record>, promised: nat, c: u64)
    requires |image| > 0
  {
    && promised <= c <= |log|
    && c <= RecordCapacity(|image|)
    && HoldsLog(image, log, c)
    && DecodeSuperblock(image[0]) == Some(Superblock(c, Chain(log[..c])))
  }

  lemma {:induction false} WalkFollowsLog(image: Image, log: seq<Record>, index: nat, count: nat)
    requires index <= count && HoldsLog(image, log, count)
    ensures Walk(image, index, count, Chain(log[..index])) == Ok(Chain(log[..count]))
    decreases count - index
  {
    hide HashOf, ReadRecord;
    if index < count {
      assert log[..index + 1][..index] == log[..index];
      WalkFollowsLog(image, log, index + 1, count);
    }
  }

  /**
   * Crash safety, read side: such an image always opens, to a prefix of the log that contains
   * everything promised, and every record of that prefix reads back.
   */
  lemma RecoverableOpens(image: Image, log: seq<Record>, promised: nat)
    requires Recoverable(image, log, promised)
    ensures Verify(image).Ok?
    ensures var s := Verify(image).value;
            && promised <= s.count <= |log|
            && s.tip == Chain(log[..s.count])
            && forall i :: 0 <= i < s.count ==> ReadRecord(image, i).Ok? && ReadRecord(image, i).value.record == log[i]
  {
    hide Walk, ReadRecord, Chain, DecodeSuperblock;
    var c: u64 :| RecoversTo(image, log, promised, c);
    ChainOfNone(log);
    WalkFollowsLog(image, log, 0, c);
  }

  lemma ChainOfNone(log: seq<Record>)
    ensures Chain(log[..0]) == ZERO_HASH
  {
    assert log[..0] == [];
  }

  lemma HoldsLongerLog(image: Image, log: seq<Record>, more: seq<Record>, n: nat)
    requires HoldsLog(image, log, n)
    ensures HoldsLog(image, log + more, n)
  {
    hide ReadRecord, Chain;
    forall i | 0 <= i < n ensures ReadRecord(image, i) == Ok(Stored((log + more)[i], Chain((log + more)[..i + 1]))) {
      assert (log + more)[..i + 1] == log[..i + 1];
    }
  }

  lemma RecoverableFromLonger(image: Image, log: seq<Record>, more: seq<Record>, promised: nat)
    requires Recoverable(image, log, promised)
    ensures Recoverable(image, log + more, promised)
  {
    hide HoldsLog, Chain;
    var c: u64 :| RecoversTo(image, log, promised, c);
    HoldsLongerLog(image, log, more, c);
    assert (log + more)[..c] == log[..c];
    assert RecoversTo(image, log + more, promised, c);
  }

  /** Records written back to back into one sector: writing slot `count` leaves the others alone. */
  lemma SlotWriteKeepsOthers(image: Image, image': Image, index: nat, i: nat)
    requires |image'| == |image| && 1 + index / 4 < |image| && i != index
    requires image' == image[1 + index / 4 := image'[1 + index / 4]]
    requires i / 4 == index / 4 ==>
               var (from, to) := (i % 4 * 128, (i % 4 + 1) * 128);
               image'[1 + index / 4][from..to] == image[1 + index / 4][from..to]
    ensures ReadRecord(image', i) == ReadRecord(image, i)
  {
  }

  /** The slot after a log of `n` records now holds `record`, linked to that log. */
  ghost predicate WritesSlot(image: Image, image': Image, log: seq<Record>, record: Record) {
    var n := |log|;
    && 1 + n / 4 < |image| == |image'|
    && image' == image[1 + n / 4 := image'[1 + n / 4]]
    && image'[1 + n / 4][n % 4 * 128..(n % 4 + 1) * 128] == Encode(record, Chain(log))
    && forall i :: 0 <= i < n && i / 4 == n / 4 ==> KeepsSlot(image[1 + n / 4], image'[1 + n / 4], i % 4)
  }

  ghost predicate KeepsSlot(sector: Sector, sector': Sector, slot: nat)
    requires slot < 4
  {
    sector'[slot * 128..(slot + 1) * 128] == sector[slot * 128..(slot + 1) * 128]
  }

  lemma SlotWriteKeepsLength(image: Image, image': Image, log: seq<Record>, record: Record)
    requires WritesSlot(image, image', log, record)
    ensures |image'| == |image|
  {
    hide Encode, KeepsSlot, Chain;
  }

  lemma NewSlotReads(image: Image, image': Image, log: seq<Record>, record: Record)
    requires WritesSlot(image, image', log, record)
    ensures ReadRecord(image', |log|) == Ok(Stored(record, HashOf(record, Chain(log))))
  {
    hide Decode, FieldBytes, HashOf, Chain, KeepsSlot;
    DecodesBack(record, HashOf(record, Chain(log)), Repeat(24, 0 as byte));
  }

  lemma SlotWriteHolds(image: Image, image': Image, log: seq<Record>, record: Record)
    requires WritesSlot(image, image', log, record) && HoldsLog(image, log, |log|)
    ensures HoldsLog(image', log + [record], |log| + 1)
  {
    hide ReadRecord, HashOf, Encode, Chain;
    var longer := log + [record];
    NewSlotReads(image, image', log, record);
    ChainGrows(log, record);
    forall i | 0 <= i < |log| ensures ReadRecord(image', i) == Ok(Stored(longer[i], Chain(longer[..i + 1]))) {
      if i / 4 == |log| / 4 {
        assert KeepsSlot(image[1 + |log| / 4], image'[1 + |log| / 4], i % 4);
      }
      SlotWriteKeepsOthers(image, image', |log|, i);
      assert longer[..i + 1] == log[..i + 1];
    }
    assert longer[..|log| + 1] == longer;
  }

  /** Such a write extends what the image holds and loses nothing it could be recovered to. */
  lemma SlotWriteExtends(image: Image, image': Image, log: seq<Record>, record: Record, promised: nat)
    requires WritesSlot(image, image', log, record)
    requires HoldsLog(image, log, |log|) && Recoverable(image, log, promised)
    ensures HoldsLog(image', log + [record], |log| + 1)
    ensures Recoverable(image', log + [record], promised)
  {
    hide ReadRecord, HashOf, Encode, DecodeSuperblock, Chain, KeepsSlot;
    SlotWriteHolds(image, image', log, record);
    var longer := log + [record];
    var c: u64 :| RecoversTo(image, log, promised, c);
    assert longer[..c] == log[..c];
    assert RecoversTo(image', longer, promised, c);
  }

  lemma RecordsKept(image: Image, image': Image, log: seq<Record>, n: nat)
    requires |image'| == |image| > 0 && image'[1..] == image[1..] && HoldsLog(image, log, n)
    ensures HoldsLog(image', log, n)
  {
    hide Decode, Chain;
    forall i | 0 <= i < n ensures ReadRecord(image', i) == ReadRecord(image, i) {
      var sector := 1 + i / 4;
      if sector < |image| {
        assert image[sector] == image[1..][sector - 1];
        assert image'[sector] == image'[1..][sector - 1];
      }
    }
  }

  /** Writing the superblock for the whole log acknowledges all of it. */
  lemma SuperblockCommits(image: Image, image': Image, log: seq<Record>)
    requires |image| == |image'| > 0 && image'[1..] == image[1..]
    requires HoldsLog(image, log, |log|) && |log| <= RecordCapacity(|image|)
    requires image'[0] == EncodeSuperblock(Superblock(|log|, Chain(log)))
    ensures HoldsLog(image', log, |log|) && Recoverable(image', log, |log|)
  {
    hide EncodeSuperblock, DecodeSuperblock, Chain, HoldsLog, RecordCapacity;
    SuperblockDecodesBack(Superblock(|log|, Chain(log)));
    RecordsKept(image, image', log, |log|);
    assert log[..|log|] == log;
    assert RecoversTo(image', log, |log|, |log|);
  }

  // ----- tamper evidence -----

  /** What a forger must produce: two messages with one digest, or a message that hashes to zero. */
  datatype Evidence = Same | Collision(x: seq<byte>, y: seq<byte>) | ZeroPreimage(x: seq<byte>)

  ghost predicate Exhibits(e: Evidence) {
    match e
    case Same => false
    case Collision(x, y) => x != y && Sha256.Hash(x) == Sha256.Hash(y)
    case ZeroPreimage(x) => Sha256.Hash(x) == ZERO_HASH
  }

  /** Two logs with one tip are one log, or the proof hands over the forgery. */
  lemma {:induction false} ChainsAgree(a: seq<Record>, b: seq<Record>) returns (e: Evidence)
    requires Chain(a) == Chain(b)
    ensures if e.Same? then a == b else Exhibits(e)
    decreases |a|
  {
    hide Sha256.Hash, FieldBytes;
    if a == [] && b == [] {
      return Same;
    }
    if a == [] {
      return ZeroPreimage(Chain(b[..|b| - 1]) + FieldBytes(b[|b| - 1]));
    }
    if b == [] {
      return ZeroPreimage(Chain(a[..|a| - 1]) + FieldBytes(a[|a| - 1]));
    }
    var x := Chain(a[..|a| - 1]) + FieldBytes(a[|a| - 1]);
    var y := Chain(b[..|b| - 1]) + FieldBytes(b[|b| - 1]);
    if x != y {
      return Collision(x, y);
    }
    assert x[..32] == y[..32] && x[32..] == y[32..];
    FieldsDetermineRecord(a[|a| - 1], b[|b| - 1]);
    e := ChainsAgree(a[..|a| - 1], b[..|b| - 1]);
    assert a == a[..|a| - 1] + [a[|a| - 1]];
    assert b == b[..|b| - 1] + [b[|b| - 1]];
  }

  /** A walk that succeeds has read a log whose chain is the hash it returns. */
  lemma {:induction false} WalkReadsLog(image: Image, log: seq<Record>, count: nat) returns (whole: seq<Record>)
    requires |log| <= count && HoldsLog(image, log, |log|)
    requires Walk(image, |log|, count, Chain(log)).Ok?
    ensures |whole| == count && HoldsLog(image, whole, count)
    ensures Walk(image, |log|, count, Chain(log)) == Ok(Chain(whole))
    decreases count - |log|
  {
    hide HashOf, ReadRecord;
    if |log| == count {
      return log;
    }
    var stored := ReadRecord(image, |log|).value;
    var longer := log + [stored.record];
    assert longer[..|log|] == log;
    HoldsLongerLog(image, log, [stored.record], |log|);
    assert longer[..|longer|] == longer;
    whole := WalkReadsLog(image, longer, count);
  }

  /** The log that an accepted image holds. */
  lemma VerifiedHoldsLog(image: Image) returns (log: seq<Record>)
    requires Verify(image).Ok?
    ensures |log| == Verify(image).value.count && HoldsLog(image, log, |log|)
    ensures Chain(log) == Verify(image).value.tip
  {
    hide Walk, HashOf, ReadRecord;
    log := WalkReadsLog(image, [], Verify(image).value.count);
  }

  lemma HeldRecordReads(image: Image, log: seq<Record>, n: nat, i: nat)
    requires HoldsLog(image, log, n) && i < n
    ensures ReadRecord(image, i) == Ok(Stored(log[i], Chain(log[..i + 1])))
  {
    hide ReadRecord, Chain;
  }

  /**
   * Tamper evidence: two disks that both verify under the same tip hold the same records, or
   * the proof exhibits a SHA-256 collision or a preimage of the all-zero hash.
   */
  lemma TamperEvidence(a: Image, b: Image) returns (e: Evidence)
    requires Verify(a).Ok? && Verify(b).Ok? && Verify(a).value.tip == Verify(b).value.tip
    ensures if e.Same? then
              && Verify(a).value.count == Verify(b).value.count
              && forall i :: 0 <= i < Verify(a).value.count ==>
                   && ReadRecord(a, i).Ok? && ReadRecord(b, i).Ok?
                   && ReadRecord(a, i).value.record == ReadRecord(b, i).value.record
            else Exhibits(e)
  {
    hide Verify, ReadRecord, Exhibits, Chain, HoldsLog;
    var log := VerifiedHoldsLog(a);
    var log' := VerifiedHoldsLog(b);
    e := ChainsAgree(log, log');
    if e.Same? {
      forall i | 0 <= i < |log| ensures ReadRecord(a, i) == ReadRecord(b, i) && ReadRecord(a, i).Ok? {
        HeldRecordReads(a, log, |log|, i);
        HeldRecordReads(b, log, |log|, i);
      }
    }
  }

  // ----- the device and the journal on it -----

  /** A device that may refuse any operation; `history` is every image that ever was on it. */
  class Disk {
    const accepts: nat -> bool
    var sectors: Image
    var operations: nat
    ghost var history: seq<Image>

    constructor (sectors: Image, accepts: nat -> bool)
      ensures this.sectors == sectors && this.accepts == accepts && operations == 0 && history == []
    {
      this.sectors := sectors;
      this.accepts := accepts;
      operations := 0;
      history := [];
    }

    method Read(sector: nat) returns (r: Option<Sector>)
      modifies this`operations
      ensures operations == old(operations) + 1
      ensures r == if accepts(old(operations)) && sector < |sectors| then Some(sectors[sector]) else None
    {
      operations := operations + 1;
      return if accepts(operations - 1) && sector < |sectors| then Some(sectors[sector]) else None;
    }

    /** One sector write: it happens whole or not at all. */
    method Write(sector: nat, data: Sector) returns (ok: bool)
      modifies this
      ensures operations == old(operations) + 1
      ensures ok == (accepts(old(operations)) && sector < |old(sectors)|)
      ensures sectors == if ok then old(sectors)[sector := data] else old(sectors)
      ensures history == if ok then old(history) + [sectors] else old(history)
    {
      ok := accepts(operations) && sector < |sectors|;
      operations := operations + 1;
      if ok {
        sectors := sectors[sector := data];
        history := history + [sectors];
      }
    }
  }

  method HashRecord(r: Record, previous: Hash) returns (hash: Hash)
    ensures hash == HashOf(r, previous)
  {
    hide Sha256.Hash, FieldBytes;
    var hasher := new Sha256.Hasher();
    hasher.Update(previous);
    assert [] + previous == previous;
    hasher.Update(FieldBytes(r));
    hash := hasher.Finish();
  }

  /** Read one slot off the device. */
  method LoadRecord(disk: Disk, index: nat) returns (r: Result<Stored, Fault>)
    modifies disk`operations
    ensures disk.operations == old(disk.operations) + 1
    ensures r == if disk.accepts(old(disk.operations)) then ReadRecord(disk.sectors, index) else Err(Device)
  {
    hide Decode;
    var sector := disk.Read(1 + index / 4);
    if sector.None? {
      return Err(Device);
    }
    var slot := index % 4;
    var decoded := Decode(sector.value[slot * 128..(slot + 1) * 128]);
    if decoded.None? {
      return Err(ChainBroken(index));
    }
    return Ok(decoded.value);
  }

  /** Every image written since the journal began, paired with what had been promised by then. */
  ghost predicate AllRecoverable(history: seq<Image>, log: seq<Record>, promised: seq<nat>) {
    && |promised| <= |history|
    && forall k :: 0 <= k < |promised| ==> Recoverable(history[|history| - |promised| + k], log, promised[k])
  }

  lemma AllRecoverableFromLonger(history: seq<Image>, log: seq<Record>, more: seq<Record>, promised: seq<nat>)
    requires AllRecoverable(history, log, promised)
    ensures AllRecoverable(history, log + more, promised)
  {
    hide Recoverable;
    forall k | 0 <= k < |promised| ensures Recoverable(history[|history| - |promised| + k], log + more, promised[k]) {
      RecoverableFromLonger(history[|history| - |promised| + k], log, more, promised[k]);
    }
  }

  lemma HistoryGrows(history: seq<Image>, image: Image, log: seq<Record>, promised: seq<nat>, mark: nat)
    requires AllRecoverable(history, log, promised) && Recoverable(image, log, mark)
    ensures AllRecoverable(history + [image], log, promised + [mark])
  {
    hide Recoverable;
  }

  lemma RecoverableNeedsSectors(image: Image, log: seq<Record>, promised: nat)
    requires Recoverable(image, log, promised)
    ensures |image| > 0 && promised <= |log|
  {
    hide HoldsLog, DecodeSuperblock;
  }

  lemma RecoverableWithLess(image: Image, log: seq<Record>, promised: nat, less: nat)
    requires Recoverable(image, log, promised) && less <= promised
    ensures Recoverable(image, log, less)
  {
    hide HoldsLog, DecodeSuperblock;
    var c: u64 :| RecoversTo(image, log, promised, c);
    assert RecoversTo(image, log, less, c);
  }

  /** Put one encoded record into its slot of a sector. */
  function Spliced(sector: Sector, slot: nat, encoded: seq<byte>): (out: Sector)
    requires slot < 4 && |encoded| == 128
    ensures out[slot * 128..(slot + 1) * 128] == encoded
    ensures forall i: nat :: i < 4 && i != slot ==> KeepsSlot(sector, out, i)
  {
    sector[..slot * 128] + encoded + sector[(slot + 1) * 128..]
  }

  /** The records that a run of appends kept. */
  function Selected(records: seq<Record>, taken: seq<bool>): seq<Record>
    requires |records| == |taken|
  {
    if records == [] then []
    else
      var last := |records| - 1;
      Selected(records[..last], taken[..last]) + if taken[last] then [records[last]] else []
  }

  lemma SelectedGrows(records: seq<Record>, taken: seq<bool>, take: bool, i: nat)
    requires |taken| == i < |records|
    ensures Selected(records[..i + 1], taken + [take]) == Selected(records[..i], taken) +
              if take then [records[i]] else []
  {
    assert records[..i + 1][..i] == records[..i];
    assert (taken + [take])[..i] == taken;
  }

  /** Every acknowledged record is in the log, where `places` says, below the acknowledged count. */
  ghost predicate Kept(records: seq<Record>, results: seq<Result<(), Fault>>, places: seq<nat>, log: seq<Record>,
        acknowledged: nat) {
    && |records| == |results| == |places|
    && acknowledged <= |log|
    && (forall i :: 0 <= i < |records| && results[i].Ok? ==> places[i] < acknowledged && log[places[i]] == records[i])
    && (forall i, j :: 0 <= i < j < |records| && results[i].Ok? && results[j].Ok? ==> places[i] < places[j])
  }

  lemma NothingKept(records: seq<Record>, log: seq<Record>, acknowledged: nat)
    requires acknowledged <= |log|
    ensures Kept(records[..0], [], [], log, acknowledged) && Selected(records[..0], []) == []
  {
  }

  lemma KeptGrows(
      records: seq<Record>, results: seq<Result<(), Fault>>, places: seq<nat>, result: Result<(), Fault>,
      log: seq<Record>, log': seq<Record>, acknowledged: nat, acknowledged': nat)
    requires |results| < |records| && Kept(records[..|results|], results, places, log, acknowledged)
    requires result.Ok? ==> log' == log + [records[|results|]] && acknowledged' == |log'|
    requires result.Err? ==> log <= log' && acknowledged' == acknowledged
    ensures Kept(records[..|results| + 1], results + [result], places + [|log|], log', acknowledged')
  {
    var n := |results|;
    assert forall i {:trigger records[..n + 1][i]} :: 0 <= i < n ==> records[..n + 1][i] == records[..n][i];
  }

  /** What was promised at each write since `start` lies between the two counts. */
  ghost predicate MarksWithin(promised: seq<nat>, start: nat, low: nat, high: nat) {
    start <= |promised| && low <= high && forall k :: start <= k < |promised| ==> low <= promised[k] <= high
  }

  lemma MarksStart(promised: seq<nat>, acknowledged: nat)
    ensures MarksWithin(promised, |promised|, acknowledged, acknowledged)
  {
  }

  lemma MarksGrow(promised: seq<nat>, start: nat, low: nat, mark: nat, writes: nat, high: nat)
    requires MarksWithin(promised, start, low, mark) && mark <= high
    ensures MarksWithin(promised + Repeat(writes, mark), start, low, high)
  {
  }

  class Journal {
    var count: nat
    var tip: Hash
    var capacity: nat
    /** The records appended, in order, whether or not their append was acknowledged. */
    ghost var log: seq<Record>
    /** How many of them an append has acknowledged, now and at each write. */
    ghost var acknowledged: nat
    ghost var promised: seq<nat>

    ghost predicate Valid(disk: Disk)
      reads this, disk
    {
      && count == |log| <= capacity == RecordCapacity(|disk.sectors|)
      && tip == Chain(log)
      && HoldsLog(disk.sectors, log, count)
      && Recoverable(disk.sectors, log, acknowledged)
      && AllRecoverable(disk.history, log, promised)
    }

    constructor (count: nat, tip: Hash, capacity: nat, ghost log: seq<Record>, ghost acknowledged: nat)
      ensures this.count == count && this.tip == tip && this.capacity == capacity
      ensures this.log == log && this.acknowledged == acknowledged && promised == []
    {
      this.count, this.tip, this.capacity := count, tip, capacity;
      this.log, this.acknowledged, promised := log, acknowledged, [];
    }

    /** Start a new log over whatever was there. */
    static method Create(disk: Disk) returns (r: Result<Journal, Fault>)
      modifies disk
      ensures r.Ok? ==> fresh(r.value) && r.value.Valid(disk) && r.value.log == []
      ensures r.Err? ==> r.error == Device && disk.sectors == old(disk.sectors)
      ensures r.Ok? <==> disk.accepts(old(disk.operations)) && |disk.sectors| > 0
    {
      hide EncodeSuperblock;
      var capacity := RecordCapacity(|disk.sectors|);
      var ok := disk.Write(0, EncodeSuperblock(Superblock(0, ZERO_HASH)));
      if !ok {
        return Err(Device);
      }
      SuperblockDecodesBack(Superblock(0, ZERO_HASH));
      assert RecoversTo(disk.sectors, [], 0, 0);
      var journal := new Journal(0, ZERO_HASH, capacity, [], 0);
      return Ok(journal);
    }

    /** Walk the whole chain before trusting it. Whatever opens is a journal like any other. */
    static method Open(disk: Disk) returns (r: Result<Journal, Fault>)
      modifies disk`operations
      ensures r.Ok? ==> fresh(r.value) && r.value.Valid(disk) && r.value.acknowledged == r.value.count
      ensures r.Ok? ==> Verify(disk.sectors) == Ok(Superblock(r.value.count, r.value.tip))
      ensures r.Err? && r.error != Device ==> Verify(disk.sectors) == Err(r.error)
      ensures (forall k :: old(disk.operations) <= k < disk.operations ==> disk.accepts(k)) ==>
                (r.Ok? <==> Verify(disk.sectors).Ok?)
    {
      hide HashOf, ReadRecord, DecodeSuperblock, Chain;
      var sector := disk.Read(0);
      if sector.None? {
        return Err(Device);
      }
      var decoded := DecodeSuperblock(sector.value);
      if decoded.None? {
        return Err(NoJournal);
      }
      var superblock := decoded.value;
      var capacity := RecordCapacity(|disk.sectors|);
      if superblock.count > capacity {
        return Err(ChainBroken(0));
      }
      var previous: Hash := ZERO_HASH;
      ghost var answer := Walk(disk.sectors, 0, superblock.count, ZERO_HASH);
      for index := 0 to superblock.count
        invariant disk.operations == old(disk.operations) + 1 + index
        invariant answer == Walk(disk.sectors, index, superblock.count, previous)
      {
        var stored :- LoadRecord(disk, index);
        var expected := HashRecord(stored.record, previous);
        if expected != stored.hash {
          return Err(ChainBroken(index));
        }
        previous := stored.hash;
      }
      if previous != superblock.tip {
        return Err(ChainBroken(superblock.count));
      }
      ghost var log := VerifiedHoldsLog(disk.sectors);
      assert log[..|log|] == log;
      assert RecoversTo(disk.sectors, log, superblock.count, superblock.count);
      var journal := new Journal(superblock.count, superblock.tip, capacity, log, superblock.count);
      return Ok(journal);
    }

    /** Commit the count and the tip. On refusal the log is longer than the disk admits. */
    method WriteSuperblock(disk: Disk) returns (r: Result<(), Fault>)
      requires Valid(disk)
      modifies this`acknowledged, this`promised, disk
      ensures Valid(disk) && |disk.sectors| == |old(disk.sectors)|
      ensures disk.operations == old(disk.operations) + 1
      ensures r == if disk.accepts(old(disk.operations)) then Ok(()) else Err(Device)
      ensures acknowledged == if r.Ok? then count else old(acknowledged)
      ensures |disk.history| == |old(disk.history)| + (if r.Ok? then 1 else 0) && old(disk.history) <= disk.history
      ensures promised == old(promised) + Repeat(|disk.history| - |old(disk.history)|, old(acknowledged))
    {
      hide HashOf, EncodeSuperblock, ReadRecord, Chain, Recoverable, HoldsLog;
      RecoverableNeedsSectors(disk.sectors, log, acknowledged);
      var ok := disk.Write(0, EncodeSuperblock(Superblock(count, tip)));
      if !ok {
        return Err(Device);
      }
      SuperblockCommits(old(disk.sectors), disk.sectors, log);
      RecoverableWithLess(disk.sectors, log, count, acknowledged);
      HistoryGrows(old(disk.history), disk.sectors, log, promised, acknowledged);
      promised := promised + [acknowledged];
      acknowledged := count;
      return Ok(());
    }

    /** Write the record into its slot; the other records of that sector must survive. */
    method StoreRecord(disk: Disk, record: Record) returns (ok: bool)
      requires Valid(disk) && count < capacity
      modifies disk
      ensures ok ==> WritesSlot(old(disk.sectors), disk.sectors, log, record)
      ensures disk.history == if ok then old(disk.history) + [disk.sectors] else old(disk.history)
      ensures !ok ==> disk.sectors == old(disk.sectors)
      ensures !ok ==> exists k :: old(disk.operations) <= k < disk.operations && !disk.accepts(k)
      ensures old(disk.operations) < disk.operations
    {
      hide HashOf, Encode, ReadRecord, Chain, Recoverable, HoldsLog, KeepsSlot, AllRecoverable;
      var sector := 1 + count / 4;
      var slot := count % 4;
      var buffer: Sector := Repeat(512, 0 as byte);
      if slot != 0 {
        var existing := disk.Read(sector);
        if existing.None? {
          assert !disk.accepts(old(disk.operations));
          return false;
        }
        buffer := existing.value;
      }
      buffer := Spliced(buffer, slot, Encode(record, tip));
      ok := disk.Write(sector, buffer);
      assert ok || !disk.accepts(disk.operations - 1);
    }

    /** Append one record and advance the chain. Two sector writes; either may be refused. */
    method Append(disk: Disk, record: Record) returns (r: Result<(), Fault>)
      requires Valid(disk)
      modifies this, disk
      ensures Valid(disk)
      ensures capacity == old(capacity) && |disk.sectors| == |old(disk.sectors)|
      ensures r == Err(Full) <==> old(|log|) >= 0x10_0000 || old(|log|) >= 4 * (|old(disk.sectors)| - 1)
      ensures r == Err(Full) ==> disk.sectors == old(disk.sectors) && log == old(log)
      ensures r.Ok? ==> log == old(log) + [record] && acknowledged == |log|
      ensures r.Err? ==> (log == old(log) || log == old(log) + [record]) && acknowledged == old(acknowledged)
      ensures r.Err? && r.error != Full ==>
                r.error == Device && exists k :: old(disk.operations) <= k < disk.operations && !disk.accepts(k)
      ensures old(disk.history) <= disk.history
      ensures promised == old(promised) + Repeat(|disk.history| - |old(disk.history)|, old(acknowledged))
    {
      hide HashOf, Encode, ReadRecord, Chain, Recoverable, HoldsLog, WritesSlot, AllRecoverable;
      if count >= capacity {
        return Err(Full);
      }
      var ok := StoreRecord(disk, record);
      if !ok {
        return Err(Device);
      }
      SlotWriteExtends(old(disk.sectors), disk.sectors, log, record, acknowledged);
      AllRecoverableFromLonger(old(disk.history), log, [record], promised);
      HistoryGrows(old(disk.history), disk.sectors, log + [record], promised, acknowledged);
      ChainGrows(log, record);
      SlotWriteKeepsLength(old(disk.sectors), disk.sectors, log, record);
      promised := promised + [acknowledged];
      log := log + [record];
      var hash := HashRecord(record, tip);
      tip := hash;
      count := count + 1;
      label Between:
      r := WriteSuperblock(disk);
      assert r.Ok? || !disk.accepts(old@Between(disk.operations));
    }

    /**
     * A whole run of appends, some of them refused, from any journal. What the log gains is a
     * selection of the records in order; `places` says where each acknowledged one went.
     */
    method AppendAll(disk: Disk, records: seq<Record>)
      returns (results: seq<Result<(), Fault>>, ghost taken: seq<bool>, ghost places: seq<nat>)
      requires Valid(disk)
      modifies this, disk
      ensures Valid(disk) && |taken| == |records|
      ensures log == old(log) + Selected(records, taken)
      ensures Kept(records, results, places, log, acknowledged)
      ensures old(disk.history) <= disk.history
      ensures |promised| == |old(promised)| + |disk.history| - |old(disk.history)|
      ensures MarksWithin(promised, |old(promised)|, old(acknowledged), acknowledged)
    {
      hide Valid, Selected, Kept, MarksWithin;
      results, taken, places := [], [], [];
      AcknowledgedIsLogged(disk);
      NothingKept(records, log, acknowledged);
      MarksStart(promised, acknowledged);
      assert log == log + [];
      for i := 0 to |records|
        invariant Valid(disk) && |taken| == i && |results| == i
        invariant log == old(log) + Selected(records[..i], taken)
        invariant Kept(records[..i], results, places, log, acknowledged)
        invariant old(disk.history) <= disk.history && old(acknowledged) <= acknowledged
        invariant |promised| == |old(promised)| + |disk.history| - |old(disk.history)|
        invariant MarksWithin(promised, |old(promised)|, old(acknowledged), acknowledged)
      {
        AcknowledgedIsLogged(disk);
        ghost var before, mark, marks := log, acknowledged, promised;
        var written := |disk.history|;
        var result := Append(disk, records[i]);
        KeptGrows(records, results, places, result, before, log, mark, acknowledged);
        MarksGrow(marks, |old(promised)|, old(acknowledged), mark, |disk.history| - written, acknowledged);
        SelectedGrows(records, taken, |log| > |before|, i);
        results, taken, places := results + [result], taken + [|log| > |before|], places + [|before|];
      }
      assert records[..|records|] == records;
    }

    lemma AcknowledgedIsLogged(disk: Disk)
      requires Valid(disk)
      ensures acknowledged <= |log|
    {
      hide HoldsLog, AllRecoverable, Chain;
      RecoverableNeedsSectors(disk.sectors, log, acknowledged);
    }

    /**
     * Crash safety: stop after any sector write of any run. The image left behind opens, to a
     * prefix of the log that contains every record acknowledged by then, and each of them reads
     * back as it was appended.
     */
    lemma CrashSafety(disk: Disk, k: nat)
      requires Valid(disk) && k < |promised| <= |disk.history|
      ensures var image := disk.history[|disk.history| - |promised| + k];
              && Verify(image).Ok?
              && promised[k] <= Verify(image).value.count <= |log|
              && Verify(image).value.tip == Chain(log[..Verify(image).value.count])
              && forall i :: 0 <= i < Verify(image).value.count ==>
                   ReadRecord(image, i).Ok? && ReadRecord(image, i).value.record == log[i]
    {
      hide Recoverable, HoldsLog, Chain, Verify, ReadRecord;
      RecoverableOpens(disk.history[|disk.history| - |promised| + k], log, promised[k]);
    }

    method ReadBack(disk: Disk, index: nat) returns (r: Result<Record, Fault>)
      requires Valid(disk)
      modifies disk`operations
      ensures Valid(disk)
      ensures index >= count ==> r == Err(ChainBroken(index))
      ensures index < count && disk.accepts(old(disk.operations)) ==> r == Ok(log[index])
      ensures index < count && !disk.accepts(old(disk.operations)) ==> r == Err(Device)
    {
      hide ReadRecord, Chain;
      if index >= count {
        return Err(ChainBroken(index));
      }
      var stored :- LoadRecord(disk, index);
      return Ok(stored.record);
    }
  }
}
