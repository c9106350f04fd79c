/**
 * The split virtqueue: a driver that fills a descriptor table and a ring, a device that empties
 * them in order and fills a ring of its own, and 16-bit indices that wrap between them.
 */
module Virtqueue {
  import opened Basics

  const WRAP: nat := 0x1_0000

  type u16 = n: nat | n < 0x1_0000

  /** A buffer as the driver submits it. */
  datatype Buffer = Buffer(address: u64, length: u32, deviceWrites: bool)

  /** A descriptor in the shared table; `more` is the flag that says `next` counts. */
  datatype Descriptor = Descriptor(address: u64, length: u32, deviceWrites: bool, more: bool, next: nat)

  const ZERO: Descriptor := Descriptor(0, 0, false, false, 0)

  datatype UsedElement = UsedElement(id: nat, length: u32)

  /** A chain as the driver means it; `start` counts descriptors since the queue began. */
  datatype Chain = Chain(start: nat, buffers: seq<Buffer>)

  function End(c: Chain): nat {
    c.start + |c.buffers|
  }

  // ----- ring arithmetic -----

  predicate IsRingSize(size: nat) {
    size == 1 || size == 2 || size == 4 || size == 8 || size == 16 || size == 32 || size == 64 || size == 128
  }

  /** The check in the constructor admits exactly the powers of two up to 128. */
  lemma CheckedSizes(size: bv16)
    ensures size != 0 && size <= 128 && size & (size - 1) == 0 <==>
              size == 1 || size == 2 || size == 4 || size == 8 || size == 16 || size == 32 || size == 64 || size == 128
  {
  }

  /** The ring slot of a position. */
  function Slot(position: nat, size: nat): (slot: nat)
    requires size > 0
    ensures slot < size
  {
    position % size
  }

  /** A wrapped index picks the ring slot that the unbounded one would: the size divides 2^16. */
  lemma WrapKeepsSlot(position: nat, size: nat)
    requires IsRingSize(size)
    ensures Slot(position % 0x1_0000, size) == Slot(position, size)
  {
    var (q, r) := (position / 0x1_0000, position % 0x1_0000);
    assert position == q * 0x1_0000 + r;
    if size == 1 {
    } else if size == 2 {
      DropMultiple(q * 0x8000, r, 2);
    } else if size == 4 {
      DropMultiple(q * 0x4000, r, 4);
    } else if size == 8 {
      DropMultiple(q * 0x2000, r, 8);
    } else if size == 16 {
      DropMultiple(q * 0x1000, r, 16);
    } else if size == 32 {
      DropMultiple(q * 0x800, r, 32);
    } else if size == 64 {
      DropMultiple(q * 0x400, r, 64);
    } else {
      DropMultiple(q * 0x200, r, 128);
    }
  }

  lemma {:induction false} DropMultiple(q: nat, r: nat, size: nat)
    requires size > 0
    ensures (q * size + r) % size == r % size
  {
    var x := q * size + r;
    var d := q + r / size - x / size;
    assert r == r / size * size + r % size && x == x / size * size + x % size;
    assert d * size == (q * size + r / size * size) - x / size * size;
    MultiplesAreFar(d, size);
  }

  /** Two positions less than one lap apart share a slot only if they are one position. */
  lemma SlotsDiffer(a: nat, b: nat, size: nat)
    requires size > 0 && a < b < a + size
    ensures Slot(a, size) != Slot(b, size)
  {
    if Slot(a, size) == Slot(b, size) {
      var d := b / size - a / size;
      assert d * size == b - a;
      MultiplesAreFar(d, size);
    }
  }

  lemma NextSlot(a: nat, n: nat, size: nat)
    requires size > 0
    ensures Slot(Slot(a, size) + n, size) == Slot(a + n, size)
  {
    DropMultiple(a / size, a % size + n, size);
    assert a + n == a / size * size + (a % size + n);
  }

  // ----- chains laid end to end -----

  /** Where the next chain will start. */
  function Total(chains: seq<Chain>): nat {
    if chains == [] then 0 else End(chains[|chains| - 1])
  }

  function StartOf(chains: seq<Chain>, k: nat): nat {
    if k < |chains| then chains[k].start else Total(chains)
  }

  ghost predicate Contiguous(chains: seq<Chain>) {
    forall k :: 0 <= k < |chains| ==> |chains[k].buffers| > 0 && chains[k].start == Total(chains[..k])
  }

  /** Each chain takes at least one descriptor, so there are no more chains than descriptors. */
  lemma {:induction false} ChainsAdvance(chains: seq<Chain>, a: nat, b: nat)
    requires Contiguous(chains) && a <= b <= |chains|
    ensures StartOf(chains, a) + (b - a) <= StartOf(chains, b)
    decreases b
  {
    if a < b {
      ChainsAdvance(chains, a, b - 1);
      StepOver(chains, b - 1);
    }
  }

  lemma StepOver(chains: seq<Chain>, k: nat)
    requires Contiguous(chains) && k < |chains|
    ensures StartOf(chains, k + 1) == End(chains[k]) > chains[k].start
  {
    if k + 1 < |chains| {
      assert chains[..k + 1][k] == chains[k];
    }
  }

  /** The slot of the table that descriptor `j` of a chain goes to. */
  function SlotFor(c: Chain, j: nat, size: nat): (slot: nat)
    requires size > 0
    ensures slot < size
  {
    Slot(c.start + j, size)
  }

  /** What the driver writes for buffer `j` of a chain. */
  function Written(c: Chain, j: nat, size: nat): Descriptor
    requires j < |c.buffers| && size > 0
  {
    var (b, last) := (c.buffers[j], j + 1 == |c.buffers|);
    Descriptor(b.address, b.length, b.deviceWrites, !last, if last then 0 else Slot(c.start + j + 1, size))
  }

  /** The table still holds every descriptor of this chain. */
  ghost predicate Intact(descriptors: seq<Descriptor>, c: Chain, size: nat)
    requires size > 0 && |descriptors| == size
  {
    forall j :: 0 <= j < |c.buffers| ==> descriptors[SlotFor(c, j, size)] == Written(c, j, size)
  }

  /** A new chain of this length would be written over a descriptor of a chain not yet completed. */
  ghost predicate Overwrites(chains: seq<Chain>, completed: nat, length: nat, size: nat)
    requires size > 0
  {
    exists at, position ::
      && StartOf(chains, completed) <= at < Total(chains)
      && Total(chains) <= position < Total(chains) + length
      && Slot(at, size) == Slot(position, size)
  }

  /** Which it does exactly when the descriptors in flight and the new ones exceed the table. */
  lemma OverwritesIff(chains: seq<Chain>, completed: nat, length: nat, size: nat)
    requires size > 0 && Contiguous(chains) && completed <= |chains| && length <= size
    requires Total(chains) - StartOf(chains, completed) <= size
    ensures Overwrites(chains, completed, length, size) <==> Total(chains) - StartOf(chains, completed) + length > size
  {
    var (low, high) := (StartOf(chains, completed), Total(chains));
    ChainsAdvance(chains, completed, |chains|);
    if high - low + length > size {
      LapIsSameSlot(low, size);
      assert Slot(low, size) == Slot(low + size, size);
    } else {
      forall at, position | low <= at < high <= position < high + length
        ensures Slot(at, size) != Slot(position, size)
      {
        SlotsDiffer(at, position, size);
      }
    }
  }

  lemma LapIsSameSlot(a: nat, size: nat)
    requires size > 0
    ensures Slot(a + size, size) == Slot(a, size)
  {
    DropMultiple(1, a, size);
  }

  /** The first descriptors of a chain are in place, and no slot but the chain's has changed. */
  ghost predicate WrittenUpTo(before: seq<Descriptor>, descriptors: seq<Descriptor>, c: Chain, size: nat, n: nat)
    requires size > 0 && |before| == |descriptors| == size
  {
    && (forall j :: 0 <= j < n && j < |c.buffers| ==> descriptors[SlotFor(c, j, size)] == Written(c, j, size))
    && forall slot :: 0 <= slot < size && !UsesSlot(c, slot, size) ==> descriptors[slot] == before[slot]
  }

  lemma WriteOne(before: seq<Descriptor>, descriptors: seq<Descriptor>, c: Chain, size: nat, position: nat)
    requires size > 0 && |before| == |descriptors| == size && position < |c.buffers| <= size
    requires WrittenUpTo(before, descriptors, c, size, position)
    ensures WrittenUpTo(before, descriptors[SlotFor(c, position, size) := Written(c, position, size)], c, size,
              position + 1)
  {
    hide Written;
    assert UsesSlot(c, SlotFor(c, position, size), size);
    forall j | 0 <= j < position ensures SlotFor(c, j, size) != SlotFor(c, position, size) {
      SlotsDiffer(c.start + j, c.start + position, size);
    }
  }

  lemma NoneWritten(descriptors: seq<Descriptor>, c: Chain, size: nat)
    requires size > 0 && |descriptors| == size
    ensures WrittenUpTo(descriptors, descriptors, c, size, 0)
  {
  }

  lemma WholeIsWritten(before: seq<Descriptor>, descriptors: seq<Descriptor>, c: Chain, size: nat)
    requires size > 0 && |before| == |descriptors| == size && WrittenUpTo(before, descriptors, c, size, |c.buffers|)
    ensures WrittenOver(before, descriptors, c, size)
  {
  }

  /** The table after a chain was written: it is there, and every slot it does not use is as before. */
  ghost predicate WrittenOver(before: seq<Descriptor>, after: seq<Descriptor>, c: Chain, size: nat)
    requires size > 0 && |before| == |after| == size
  {
    && Intact(after, c, size)
    && forall slot :: 0 <= slot < size && !UsesSlot(c, slot, size) ==> after[slot] == before[slot]
  }

  ghost predicate UsesSlot(c: Chain, slot: nat, size: nat)
    requires size > 0
  {
    exists j :: 0 <= j < |c.buffers| && SlotFor(c, j, size) == slot
  }

  predicate Meet(earlier: Chain, i: int, later: Chain, j: int, size: nat)
    requires size > 0
  {
    0 <= i < |earlier.buffers| && 0 <= j < |later.buffers| && SlotFor(earlier, i, size) == SlotFor(later, j, size)
  }

  /** Wherever the two share a slot, they want the same in it. */
  ghost predicate Agree(earlier: Chain, later: Chain, size: nat)
    requires size > 0
  {
    forall i, j :: Meet(earlier, i, later, j, size) ==> Written(earlier, i, size) == Written(later, j, size)
  }

  /** A chain that was in the table still is after another was written, exactly if they agree. */
  lemma IntactIff(before: seq<Descriptor>, after: seq<Descriptor>, earlier: Chain, later: Chain, size: nat)
    requires size > 0 && |before| == |after| == size && WrittenOver(before, after, later, size)
    requires Intact(before, earlier, size)
    ensures Intact(after, earlier, size) <==> Agree(earlier, later, size)
  {
    hide SlotFor, Written;
    if Agree(earlier, later, size) {
      forall i | 0 <= i < |earlier.buffers| ensures after[SlotFor(earlier, i, size)] == Written(earlier, i, size) {
        if UsesSlot(later, SlotFor(earlier, i, size), size) {
          var j :| 0 <= j < |later.buffers| && SlotFor(later, j, size) == SlotFor(earlier, i, size);
          assert Meet(earlier, i, later, j, size);
        }
      }
    }
  }

  /** Chains less than one lap apart share nothing. */
  lemma ApartAgree(earlier: Chain, later: Chain, size: nat)
    requires size > 0 && End(earlier) <= later.start && later.start + |later.buffers| <= earlier.start + size
    ensures Agree(earlier, later, size)
  {
    forall i, j | 0 <= i < |earlier.buffers| && 0 <= j < |later.buffers|
      ensures SlotFor(earlier, i, size) != SlotFor(later, j, size)
    {
      SlotsDiffer(earlier.start + i, later.start + j, size);
    }
  }

  /** A chain still out lies between what was read and where the next chain starts. */
  lemma InFlightWindow(chains: seq<Chain>, from: nat, k: nat)
    requires Contiguous(chains) && from <= k < |chains|
    ensures StartOf(chains, from) <= chains[k].start && End(chains[k]) <= Total(chains)
  {
    ChainsAdvance(chains, from, k);
    ChainsAdvance(chains, k + 1, |chains|);
    StepOver(chains, k);
  }

  /** Of the chains in flight, a new one leaves intact exactly those it agrees with: all, if it fits. */
  lemma WriteKeepsOffers(
      before: seq<Descriptor>, after: seq<Descriptor>, ring: seq<nat>, chains: seq<Chain>, from: nat, size: nat,
        c: Chain)
    requires size > 0 && |before| == |after| == |ring| == size && Offers(before, ring, chains, from, size)
    requires Contiguous(chains) && c.start == Total(chains) && WrittenOver(before, after, c, size)
    ensures forall k :: from <= k < |chains| ==> (Intact(after, chains[k], size) <==> Agree(chains[k], c, size))
    ensures c.start + |c.buffers| <= StartOf(chains, from) + size ==> Offers(after, ring, chains, from, size)
  {
    hide Intact, Contiguous, Total, StartOf, Slot, WrittenOver, Agree;
    forall k | from <= k < |chains|
      ensures Intact(after, chains[k], size) <==> Agree(chains[k], c, size)
      ensures c.start + |c.buffers| <= StartOf(chains, from) + size ==> Agree(chains[k], c, size)
    {
      IntactIff(before, after, chains[k], c, size);
      InFlightWindow(chains, from, k);
      if c.start + |c.buffers| <= StartOf(chains, from) + size {
        ApartAgree(chains[k], c, size);
      }
    }
  }

  /** One more chain, laid right after the others. */
  lemma Published(chains: seq<Chain>, from: nat, c: Chain)
    requires Contiguous(chains) && from <= |chains| && |c.buffers| > 0 && c.start == Total(chains)
    ensures Contiguous(chains + [c]) && Total(chains + [c]) == End(c)
    ensures StartOf(chains + [c], from) == StartOf(chains, from)
    ensures |chains| - from <= Total(chains) - StartOf(chains, from)
  {
    var more := chains + [c];
    forall k | 0 <= k < |more| ensures |more[k].buffers| > 0 && more[k].start == Total(more[..k]) {
      if k < |chains| {
        assert more[..k] == chains[..k];
      } else {
        assert more[..k] == chains;
      }
    }
    ChainsAdvance(chains, from, |chains|);
  }

  lemma WrittenIsIntact(before: seq<Descriptor>, after: seq<Descriptor>, c: Chain, size: nat)
    requires size > 0 && |before| == |after| == size && WrittenOver(before, after, c, size)
    ensures Intact(after, c, size)
  {
  }

  lemma RingSizeIsPositive(size: nat)
    requires IsRingSize(size)
    ensures 0 < size <= 128
  {
  }

  /** From chain `from` on, the ring names the heads and the table holds the descriptors. */
  ghost predicate Offers(descriptors: seq<Descriptor>, ring: seq<nat>, chains: seq<Chain>, from: nat, size: nat)
    requires size > 0 && |descriptors| == |ring| == size
  {
    forall k :: from <= k < |chains| ==>
      ring[Slot(k, size)] == Slot(chains[k].start, size) && Intact(descriptors, chains[k], size)
  }

  /** The completions from `taken` on are in the used ring. */
  ghost predicate Completes(ring: seq<UsedElement>, chains: seq<Chain>, reports: seq<u32>, taken: nat, size: nat)
    requires size > 0 && |ring| == size && |reports| <= |chains|
  {
    forall k :: taken <= k < |reports| ==> ring[Slot(k, size)] == UsedElement(Slot(chains[k].start, size), reports[k])
  }

  lemma OffersOneMore(descriptors: seq<Descriptor>, ring: seq<nat>, chains: seq<Chain>, from: nat, size: nat, c: Chain)
    requires size > 0 && |descriptors| == |ring| == size && Offers(descriptors, ring, chains, from, size)
    requires from <= |chains| < from + size && Intact(descriptors, c, size)
    ensures Offers(descriptors, ring[Slot(|chains|, size) := Slot(c.start, size)], chains + [c], from, size)
  {
    hide Intact, Slot;
    forall k | from <= k < |chains| ensures Slot(k, size) != Slot(|chains|, size) {
      SlotsDiffer(k, |chains|, size);
    }
  }

  lemma CompletesStill(ring: seq<UsedElement>, chains: seq<Chain>, reports: seq<u32>, taken: nat, size: nat, c: Chain)
    requires size > 0 && |ring| == size && |reports| <= |chains| && Completes(ring, chains, reports, taken, size)
    ensures Completes(ring, chains + [c], reports, taken, size)
  {
    hide Slot;
  }

  lemma CompletesOneMore(ring: seq<UsedElement>, chains: seq<Chain>, reports: seq<u32>, taken: nat, size: nat,
        report: u32)
    requires size > 0 && |ring| == size && |reports| < |chains| && Completes(ring, chains, reports, taken, size)
    requires taken <= |reports| < taken + size
    ensures Completes(ring[Slot(|reports|, size) := UsedElement(Slot(chains[|reports|].start, size), report)], chains,
              reports + [report], taken, size)
  {
    hide Slot;
    forall k | taken <= k < |reports| ensures Slot(k, size) != Slot(|reports|, size) {
      SlotsDiffer(k, |reports|, size);
    }
  }

  lemma OffersNext(descriptors: seq<Descriptor>, ring: seq<nat>, chains: seq<Chain>, from: nat, size: nat)
    requires size > 0 && |descriptors| == |ring| == size && Offers(descriptors, ring, chains, from, size)
    requires from < |chains|
    requires Contiguous(chains)
    ensures ring[Slot(from, size)] == Slot(chains[from].start, size) && Intact(descriptors, chains[from], size)
    ensures |chains[from].buffers| > 0
  {
    hide Intact, Slot, Total;
  }

  lemma OffersFewer(descriptors: seq<Descriptor>, ring: seq<nat>, chains: seq<Chain>, from: nat, size: nat)
    requires size > 0 && |descriptors| == |ring| == size && Offers(descriptors, ring, chains, from, size)
    ensures Offers(descriptors, ring, chains, from + 1, size)
  {
    hide Intact, Slot;
  }

  lemma IntactAt(descriptors: seq<Descriptor>, c: Chain, size: nat, j: nat)
    requires size > 0 && |descriptors| == size && Intact(descriptors, c, size) && j < |c.buffers|
    ensures descriptors[SlotFor(c, j, size)] == Written(c, j, size)
  {
  }

  /** A chain that the device has read is no longer outstanding. */
  lemma ReadingFrees(chains: seq<Chain>, read: nat, size: nat)
    requires Contiguous(chains) && read < |chains| && Total(chains) - StartOf(chains, read) <= size
    ensures Total(chains) - StartOf(chains, read + 1) <= size
  {
    ChainsAdvance(chains, read, read + 1);
  }

  /** Counts less than one wrap apart are equal when their wrapped values are. */
  lemma SameWrapped(a: nat, b: nat)
    requires a <= b < a + 0x1_0000
    ensures a % 0x1_0000 == b % 0x1_0000 <==> a == b
  {
  }

  lemma NextWrapped(n: nat)
    ensures (n % 0x1_0000 + 1) % 0x1_0000 == (n + 1) % 0x1_0000
  {
  }

  class Queue {
    const size: nat
    // shared memory
    var descriptors: seq<Descriptor>
    var availableIndex: u16
    var availableRing: seq<nat>
    var usedIndex: u16
    var usedRing: seq<UsedElement>
    // the driver's own
    var nextDescriptor: nat
    var lastUsed: u16
    var broken: bool
    // the device's own
    var lastAvailable: u16
    /** Every chain ever published, and what the device reported for those it completed. */
    ghost var chains: seq<Chain>
    ghost var reports: seq<u32>
    ghost var taken: nat

    /** Descriptors of chains that the device has yet to read. */
    ghost function Outstanding(): int
      reads this
    {
      Total(chains) - StartOf(chains, |reports|)
    }

    /** What the device has yet to read fits the table, and what is not taken back the rings. */
    ghost predicate Valid()
      reads this
    {
      && IsRingSize(size) && |descriptors| == |availableRing| == |usedRing| == size
      && taken <= |reports| <= |chains| && Contiguous(chains)
      && Outstanding() <= size && |chains| - taken <= size
      && nextDescriptor == Slot(Total(chains), size)
      && RingsHold()
    }

    /** Indices are counts that wrap; rings hold the heads in flight and the completions not taken. */
    ghost predicate RingsHold()
      requires IsRingSize(size) && |descriptors| == |availableRing| == |usedRing| == size
      reads this
    {
      && taken <= |reports| <= |chains|
      && availableIndex == |chains| % WRAP && usedIndex == lastAvailable == |reports| % WRAP && lastUsed == taken % WRAP
      && Offers(descriptors, availableRing, chains, |reports|, size)
      && Completes(usedRing, chains, reports, taken, size)
    }

    constructor (size: nat)
      requires IsRingSize(size)
      ensures Valid() && !broken && chains == [] && reports == [] && taken == 0 && this.size == size
    {
      this.size := size;
      descriptors := Repeat(size, ZERO);
      availableIndex, usedIndex, lastUsed, lastAvailable := 0, 0, 0, 0;
      availableRing := Repeat(size, 0);
      usedRing := Repeat(size, UsedElement(0, 0));
      nextDescriptor, broken := 0, false;
      chains, reports, taken := [], [], 0;
    }

    /** A queue of a power of two, as the ring arithmetic assumes, or none. */
    static method New(size: bv16) returns (r: Option<Queue>)
      ensures r.Some? <==> size != 0 && size <= 128 && size & (size - 1) == 0
      ensures r.Some? ==>
                && fresh(r.value)
                && r.value.Valid()
                && r.value.size == size as nat
                && r.value.chains == []
                && !r.value.broken
    {
      if size == 0 || size > 128 || size & (size - 1) != 0 {
        return None;
      }
      CheckedSizes(size);
      var q := new Queue(size as nat);
      return Some(q);
    }

    /**
     * Publish a chain of buffers. If with those the device has yet to read they fit the table, and
     * with those not taken back the used ring, all stays in order. If not, the chain is published
     * all the same; if the table is exceeded, over a descriptor the device has yet to read, and of
     * those chains exactly the ones that agree with it are intact.
     */
    method Submit(buffers: seq<Buffer>) returns (r: Option<nat>)
      requires Valid()
      modifies this
      ensures broken == old(broken) && reports == old(reports) && taken == old(taken)
      ensures r.None? <==> old(broken) || buffers == [] || |buffers| > size
      ensures r.None? ==> unchanged(this)
      ensures r.Some? ==>
                && chains == old(chains) + [Chain(Total(old(chains)), buffers)]
                && r.value == Slot(Total(old(chains)), size)
      ensures r.Some? ==>
                (Valid() <==> old(Outstanding()) + |buffers| <= size && |old(chains)| - taken < size)
      ensures r.Some? ==> |descriptors| == size && Intact(descriptors, chains[|old(chains)|], size)
      ensures r.Some? ==> forall k :: |reports| <= k < |old(chains)| ==>
                (Intact(descriptors, chains[k], size) <==> Agree(chains[k], chains[|old(chains)|], size))
      ensures r.Some? ==>
                (Overwrites(old(chains), |reports|, |buffers|, size) <==> old(Outstanding()) + |buffers| > size)
    {
      hide Intact, Agree, IsRingSize, Contiguous, Total, StartOf, Slot, Offers, Completes, Overwrites, WrittenOver;
      if broken || buffers == [] || |buffers| > size {
        return None;
      }
      var head := nextDescriptor;
      ghost var c := Chain(Total(chains), buffers);
      RingSizeIsPositive(size);
      WriteChain(c, head, buffers);
      ghost var table := descriptors;
      WrittenIsIntact(old(descriptors), table, c, size);
      WriteKeepsOffers(old(descriptors), table, availableRing, chains, |reports|, size, c);
      OverwritesIff(chains, |reports|, |buffers|, size);
      NextSlot(c.start, |buffers|, size);
      nextDescriptor := Slot(head + |buffers|, size);
      Published(chains, |reports|, c);
      Publish(c, head);
      return Some(head);
    }

    /** Name the head of a written chain in the ring, and move the index that publishes it. */
    method Publish(ghost c: Chain, head: nat)
      requires IsRingSize(size) && |descriptors| == |availableRing| == |usedRing| == size
      requires availableIndex == |chains| % WRAP && head == Slot(c.start, size)
      modifies this`availableRing, this`availableIndex, this`chains
      ensures |availableRing| == size && chains == old(chains) + [c]
      ensures old(RingsHold()) && |old(chains)| - taken < size && Intact(descriptors, c, size) ==> RingsHold()
    {
      hide Intact, IsRingSize, Slot, Offers, Completes;
      RingSizeIsPositive(size);
      WrapKeepsSlot(|chains|, size);
      if RingsHold() && |chains| - taken < size && Intact(descriptors, c, size) {
        OffersOneMore(descriptors, availableRing, chains, |reports|, size, c);
        CompletesStill(usedRing, chains, reports, taken, size, c);
      }
      NextWrapped(|chains|);
      availableRing := availableRing[Slot(availableIndex, size) := head];
      availableIndex := (availableIndex + 1) % 0x1_0000;
      chains := chains + [c];
    }

    /** Fill the descriptors of one chain, from slot `head` around the table. */
    method WriteChain(ghost c: Chain, head: nat, buffers: seq<Buffer>)
      requires size > 0 && |descriptors| == size && c.buffers == buffers && 0 < |buffers| <= size
      requires head == Slot(c.start, size)
      modifies this`descriptors
      ensures |descriptors| == size && WrittenOver(old(descriptors), descriptors, c, size)
    {
      hide WrittenUpTo, WrittenOver, Slot;
      var index := head;
      NoneWritten(descriptors, c, size);
      for position := 0 to |buffers|
        invariant index < size && (position < |buffers| ==> index == SlotFor(c, position, size))
        invariant |descriptors| == size && WrittenUpTo(old(descriptors), descriptors, c, size, position)
      {
        var last := position + 1 == |buffers|;
        NextSlot(c.start + position, 1, size);
        var next := if last then 0 else Slot(index + 1, size);
        var b := buffers[position];
        WriteOne(old(descriptors), descriptors, c, size, position);
        descriptors := descriptors[index := Descriptor(b.address, b.length, b.deviceWrites, !last, next)];
        index := next;
      }
      WholeIsWritten(old(descriptors), descriptors, c, size);
    }

    /**
     * The device takes the next published chain, follows it through the table, and completes it.
     * What it reads is exactly what the driver submitted.
     */
    method DeviceStep(report: u32) returns (buffers: seq<Buffer>)
      requires Valid() && |reports| < |chains|
      modifies this`usedRing, this`usedIndex, this`lastAvailable, this`reports
      ensures Valid() && reports == old(reports) + [report]
      ensures buffers == chains[|old(reports)|].buffers
    {
      hide Intact, IsRingSize, Contiguous, Total, StartOf, Slot, Offers, Completes;
      RingSizeIsPositive(size);
      WrapKeepsSlot(|reports|, size);
      OffersNext(descriptors, availableRing, chains, |reports|, size);
      var head := availableRing[Slot(lastAvailable, size)];
      buffers := Follow(head);
      ReadingFrees(chains, |reports|, size);
      CompletesOneMore(usedRing, chains, reports, taken, size, report);
      OffersFewer(descriptors, availableRing, chains, |reports|, size);
      NextWrapped(|reports|);
      usedRing := usedRing[Slot(usedIndex, size) := UsedElement(head, report)];
      usedIndex := (usedIndex + 1) % 0x1_0000;
      lastAvailable := (lastAvailable + 1) % 0x1_0000;
      reports := reports + [report];
    }

    /** Follow a chain through the table by its `next` fields. */
    method Follow(head: nat) returns (buffers: seq<Buffer>)
      requires 0 < size == |descriptors| && |reports| < |chains|
      requires |chains[|reports|].buffers| > 0 && Intact(descriptors, chains[|reports|], size)
      requires head == Slot(chains[|reports|].start, size)
      ensures buffers == chains[|reports|].buffers
    {
      hide Slot, Intact;
      ghost var c := chains[|reports|];
      var index, more := head, true;
      buffers := [];
      while more
        invariant |buffers| <= |c.buffers| && buffers == c.buffers[..|buffers|]
        invariant more <==> |buffers| < |c.buffers|
        invariant more ==> index == SlotFor(c, |buffers|, size)
        decreases |c.buffers| - |buffers|
      {
        IntactAt(descriptors, c, size, |buffers|);
        var d := descriptors[index];
        buffers := buffers + [Buffer(d.address, d.length, d.deviceWrites)];
        index, more := d.next, d.more;
      }
    }

    /** Has the device finished anything? Completions come once each, oldest first. */
    method TakeUsed() returns (r: Option<(nat, u32)>)
      requires Valid()
      modifies this`lastUsed, this`taken
      ensures Valid()
      ensures r.None? <==> old(taken) == |reports|
      ensures r.None? ==> taken == old(taken)
      ensures r.Some? ==>
                taken == old(taken) + 1 && r.value == (Slot(chains[old(taken)].start, size), reports[old(taken)])
    {
      hide Intact, IsRingSize, Contiguous, Total, StartOf, Slot, Offers;
      RingSizeIsPositive(size);
      SameWrapped(taken, |reports|);
      if usedIndex == lastUsed {
        return None;
      }
      WrapKeepsSlot(taken, size);
      var element := usedRing[Slot(lastUsed, size)];
      lastUsed := (lastUsed + 1) % 0x1_0000;
      NextWrapped(taken);
      taken := taken + 1;
      return Some((element.id, element.length));
    }

    /** The device makes progress on its own: as many completions as it likes of what is published. */
    method DeviceRuns(steps: nat, report: nat -> u32)
      requires Valid()
      modifies this`usedRing, this`usedIndex, this`lastAvailable, this`reports
      ensures Valid() && old(reports) <= reports
    {
      hide Valid;
      for i := 0 to steps
        invariant Valid() && old(reports) <= reports
      {
        PublishedIsSeen();
        if lastAvailable != availableIndex {
          var _ := DeviceStep(report(i));
        }
      }
    }

    /** The wrapped indices tell the device whether anything is published that it has not completed. */
    lemma PublishedIsSeen()
      requires Valid()
      ensures lastAvailable != availableIndex <==> |reports| < |chains|
    {
      hide Intact, Offers, Completes, Slot;
      RingSizeIsPositive(size);
      SameWrapped(|reports|, |chains|);
    }

    lemma CompletedArePublished()
      requires Valid()
      ensures taken <= |reports| <= |chains|
    {
    }

    /**
     * Poll until this request completes or the attempts run out, while the device runs. Giving up,
     * or meeting another request's completion, breaks the queue.
     */
    method WaitFor(head: nat, attempts: nat, device: nat -> nat, report: nat -> u32) returns (r: Option<u32>)
      requires Valid()
      modifies this`usedRing, this`usedIndex, this`lastAvailable, this`reports, this`lastUsed, this`taken, this`broken
      ensures Valid() && old(reports) <= reports
      ensures r.Some? ==>
                && broken == old(broken)
                && taken == old(taken) + 1
                && old(taken) < |reports|
                && head == Slot(chains[old(taken)].start, size)
                && r.value == reports[old(taken)]
      ensures r.None? ==> broken
    {
      hide Valid, Slot;
      for attempt := 0 to attempts
        invariant Valid() && old(reports) <= reports && taken == old(taken) && broken == old(broken)
      {
        DeviceRuns(device(attempt), report);
        CompletedArePublished();
        var done := TakeUsed();
        if done.Some? {
          if done.value.0 == head {
            return Some(done.value.1);
          }
          Break();
          return None;
        }
      }
      Break();
      return None;
    }

    /** From here on nothing is published: submissions are refused and leave the memory alone. */
    method Break()
      requires Valid()
      modifies this`broken
      ensures Valid() && broken
    {
      broken := true;
    }
  }
}
