/**
 * The kernel's address space: an identity map built at bring-up, device windows added on demand,
 * and the yard, the part of it that user code can reach.
 */
module Paging {
  import opened Basics
  import opened Frames
  import opened PageTables

  const GIB: nat := 0x4000_0000
  const HUGE_PAGE: nat := 0x20_0000
  const DEVICE_WINDOW: nat := 0xf000_0000
  const MAX_DEVICE_WINDOWS: nat := 8

  /** A region of the firmware's memory map. */
  datatype Region = Region(start: nat, pages: nat)

  datatype Window = Window(start: nat, end: nat)

  /** Addresses that share a 2 MiB page share all but the last slot of the walk. */
  lemma SameSlots(page: nat, va: nat)
    requires page % 0x20_0000 == 0 && page <= va < page + 0x20_0000
    ensures SlotOf(va, 4) == SlotOf(page, 4) && SlotOf(va, 3) == SlotOf(page, 3) && SlotOf(va, 2) == SlotOf(page, 2)
    ensures va % 0x20_0000 == va - page && HugeBase(va) == page
  {
    var n := page / 0x20_0000;
    assert va / 0x20_0000 == n;
    assert va / 0x4000_0000 == n / 512 && page / 0x4000_0000 == n / 512;
    assert va / 0x80_0000_0000 == n / 262144 && page / 0x80_0000_0000 == n / 262144;
  }

  lemma TopCovers(memory: Memory, top: nat, l: Layout, va: nat)
    requires Shape(memory, top, l) && va < HIGHEST
    ensures Place(4, 0) in l.tables && l.tables[Place(4, 0)] == top && Covers(Place(4, 0), va)
  {
  }

  lemma TablesAreThere(memory: Memory, top: nat, l: Layout)
    requires Shape(memory, top, l)
    ensures Place(4, 0) in l.tables && l.tables[Place(4, 0)] == top && l.data !! memory.Keys
    ensures forall p :: p in l.tables ==> 1 <= p.level <= 4 && GoodPlace(p) && l.tables[p] in memory
  {
  }

  // ----- what stays translated -----

  /** The 2 MiB from `page` translate, as one page. */
  ghost predicate Reached(memory: Memory, top: nat, page: nat) {
    && page % 0x20_0000 == 0 && page + 0x20_0000 <= HIGHEST
    && forall va :: page <= va < page + 0x20_0000 ==> HugeWalk(memory, top, va)
  }

  predicate HugeWalk(memory: Memory, top: nat, va: nat) {
    Walk(memory, top, 4, va).Some? && EndsHuge(memory, top, 4, va)
  }

  ghost predicate AllReached(memory: Memory, top: nat, pages: set<nat>) {
    forall page :: page in pages ==> Reached(memory, top, page)
  }

  /** None of these 2 MiB pages touches the range. */
  ghost predicate Clear(pages: set<nat>, start: nat, end: nat) {
    forall page :: page in pages ==> page + 0x20_0000 <= start || end <= page
  }

  lemma ReachedPersists(memory: Memory, memory': Memory, top: nat, l: Layout, start: nat, end: nat, pages: set<nat>)
    requires Shape(memory, top, l) && Grows(memory, memory', l.tables, start, end)
    requires AllReached(memory, top, pages) && Clear(pages, start, end)
    ensures AllReached(memory', top, pages)
  {
    hide Shape, Grows;
    forall page | page in pages ensures Reached(memory', top, page) {
      assert Reached(memory, top, page);
      forall va | page <= va < page + 0x20_0000 ensures HugeWalk(memory', top, va) {
        assert HugeWalk(memory, top, va);
        TopCovers(memory, top, l, va);
        TranslationsPersist(memory, memory', top, l, start, end, Place(4, 0), va);
      }
    }
  }

  /** The page of this address translates for user code. */
  predicate UserWalk(memory: Memory, top: nat, va: nat) {
    var w := Walk(memory, top, 4, va);
    w.Some? && w.value.user && !EndsHuge(memory, top, 4, va)
  }

  ghost predicate Open(memory: Memory, top: nat, yard: set<nat>) {
    forall va :: 0 <= va < HIGHEST && PageOf(va) in yard ==> UserWalk(memory, top, va)
  }

  ghost predicate Avoids(yard: set<nat>, start: nat, end: nat) {
    forall va: nat :: PageOf(va) in yard ==> !(start <= va < end)
  }

  lemma OpenPersists(memory: Memory, memory': Memory, top: nat, l: Layout, start: nat, end: nat, yard: set<nat>)
    requires Shape(memory, top, l) && Grows(memory, memory', l.tables, start, end)
    requires Open(memory, top, yard) && Avoids(yard, start, end)
    ensures Open(memory', top, yard)
  {
    hide Shape, Grows, PageOf;
    forall va | 0 <= va < HIGHEST && PageOf(va) in yard ensures UserWalk(memory', top, va) {
      assert UserWalk(memory, top, va);
      TopCovers(memory, top, l, va);
      TranslationsPersist(memory, memory', top, l, start, end, Place(4, 0), va);
    }
  }

  lemma BeyondAvoids(yard: set<nat>, page: nat)
    requires page % 0x20_0000 == 0
    ensures Avoids(Beyond(yard, page), page, page + 0x20_0000)
  {
    forall va: nat | PageOf(va) in Beyond(yard, page) ensures !(page <= va < page + 0x20_0000) {
      BaseOfPage(va);
    }
  }

  lemma BaseOfPage(va: nat)
    ensures HugeBase(PageOf(va)) == HugeBase(va)
  {
    var n := va / 0x1000;
    assert va / 0x20_0000 == n / 512 && n * 0x1000 / 0x20_0000 == n / 512;
  }

  lemma OthersAvoid(yard: set<nat>, va: nat)
    ensures Avoids(yard - {PageOf(va)}, PageOf(va), PageOf(va) + 0x1000)
  {
  }

  /** Outside the range, whatever translated does so to the same thing, and nothing else does. */
  ghost predicate KeepsOutside(memory: Memory, memory': Memory, top: nat, start: nat, end: nat) {
    forall va :: 0 <= va < HIGHEST && !(start <= va < end) ==> Walk(memory', top, 4, va) == Walk(memory, top, 4, va)
  }

  lemma NothingLost(memory: Memory, top: nat, start: nat, end: nat)
    ensures KeepsOutside(memory, memory, top, start, end)
  {
  }

  lemma KeepsOutsideTransitive(a: Memory, b: Memory, c: Memory, top: nat, start: nat, end: nat)
    requires KeepsOutside(a, b, top, start, end) && KeepsOutside(b, c, top, start, end)
    ensures KeepsOutside(a, c, top, start, end)
  {
    hide Walk;
  }

  lemma GrowthKeepsOutside(memory: Memory, memory': Memory, top: nat, l: Layout, from: nat, to: nat, start: nat,
        end: nat)
    requires Shape(memory, top, l) && Open(memory, top, l.yard)
    requires Grows(memory, memory', l.tables, from, to) && (from == to == 0 || (start <= from && to <= end))
    ensures KeepsOutside(memory, memory', top, start, end)
  {
    hide Shape, Grows, PageOf, HugeBase, InYard;
    forall va | 0 <= va < HIGHEST && !(start <= va < end)
      ensures Walk(memory', top, 4, va) == Walk(memory, top, 4, va)
    {
      TopCovers(memory, top, l, va);
      TranslationsPersist(memory, memory', top, l, from, to, Place(4, 0), va);
      TranslationsAreConfined(memory, top, l, Place(4, 0), va);
      if Walk(memory, top, 4, va).Some? && !EndsHuge(memory, top, 4, va) {
        assert UserWalk(memory, top, va);
      }
    }
  }

  ghost predicate SameHuge(memory: Memory, memory': Memory, top: nat) {
    forall va :: 0 <= va < HIGHEST ==> (EndsHuge(memory', top, 4, va) <==> EndsHuge(memory, top, 4, va))
  }

  lemma GrowthKeepsHuge(memory: Memory, memory': Memory, top: nat, l: Layout)
    requires Shape(memory, top, l) && Grows(memory, memory', l.tables, 0, 0)
    ensures SameHuge(memory, memory', top)
  {
    hide Shape, Grows;
    forall va | 0 <= va < HIGHEST ensures EndsHuge(memory', top, 4, va) <==> EndsHuge(memory, top, 4, va) {
      TopCovers(memory, top, l, va);
      TranslationsPersist(memory, memory', top, l, 0, 0, Place(4, 0), va);
    }
  }

  lemma SameHugeTransitive(a: Memory, b: Memory, c: Memory, top: nat)
    requires SameHuge(a, b, top) && SameHuge(b, c, top)
    ensures SameHuge(a, c, top)
  {
    hide EndsHuge;
  }

  // ----- walking down -----

  /** The entry for `va` in this table leads to `next`. */
  predicate Leads(memory: Memory, table: nat, level: nat, va: nat, next: nat)
    requires 1 <= level <= 4
  {
    && table in memory
    && (var e := memory[table][SlotOf(va, level)]; e.present && !e.huge && e.writable && e.address == next)
  }

  /** And passes user code on. */
  predicate Passes(memory: Memory, table: nat, level: nat, va: nat, next: nat)
    requires 1 <= level <= 4
  {
    Leads(memory, table, level, va, next) && memory[table][SlotOf(va, level)].user
  }

  /** The walk ends in a page that is not cached. */
  predicate Uncached(memory: Memory, top: nat, va: nat) {
    var path := Met(memory, top, 4, va);
    path != [] && path[|path| - 1].uncached
  }

  /** Two links and a page: all that the walk meets. */
  lemma PageIsLast(memory: Memory, top: nat, pdpt: nat, directory: nat, va: nat)
    requires Leads(memory, top, 4, va, pdpt) && Leads(memory, pdpt, 3, va, directory) && directory in memory
    requires memory[directory][SlotOf(va, 2)].huge
    ensures Uncached(memory, top, va) <==> memory[directory][SlotOf(va, 2)].uncached
  {
    hide SlotOf;
    var e := memory[directory][SlotOf(va, 2)];
    assert Met(memory, directory, 2, va) == [e];
    assert Met(memory, pdpt, 3, va) == [memory[pdpt][SlotOf(va, 3)], e];
    assert Met(memory, top, 4, va) == [memory[top][SlotOf(va, 4)], memory[pdpt][SlotOf(va, 3)], e];
  }

  lemma LinkStays(memory: Memory, memory': Memory, tables: map<Place, nat>, start: nat, end: nat, p: Place, va: nat,
        next: nat)
    requires Grows(memory, memory', tables, start, end) && end <= start + 0x20_0000
    requires p in tables && 3 <= p.level <= 4 && Leads(memory, tables[p], p.level, va, next)
    ensures Leads(memory', tables[p], p.level, va, next)
    ensures Passes(memory, tables[p], p.level, va, next) ==> Passes(memory', tables[p], p.level, va, next)
  {
    assert HasEntry(memory, tables, p, SlotOf(va, p.level)) && !Exempt(p, SlotOf(va, p.level), start, end);
  }

  /** Three entries in a row, the last one huge, translate a whole page. */
  lemma PathReaches(memory: Memory, top: nat, pdpt: nat, directory: nat, page: nat)
    requires page % 0x20_0000 == 0 && page + 0x20_0000 <= HIGHEST
    requires Leads(memory, top, 4, page, pdpt) && Leads(memory, pdpt, 3, page, directory) && directory in memory
    requires memory[directory][SlotOf(page, 2)].present && memory[directory][SlotOf(page, 2)].huge
    ensures Reached(memory, top, page)
  {
    hide SlotOf, HugeBase;
    forall va | page <= va < page + 0x20_0000 ensures HugeWalk(memory, top, va) {
      SameSlots(page, va);
      assert Walk(memory, directory, 2, va).Some? && EndsHuge(memory, directory, 2, va);
      assert Walk(memory, pdpt, 3, va).Some? && EndsHuge(memory, pdpt, 3, va);
    }
  }

  /** The tables on the way to one page of user code. */
  datatype Path = Path(pdpt: nat, directory: nat, table: nat)

  lemma UserPath(memory: Memory, top: nat, pdpt: nat, directory: nat, table: nat, va: nat)
    requires Passes(memory, top, 4, va, pdpt) && Passes(memory, pdpt, 3, va, directory)
    requires Passes(memory, directory, 2, va, table) && table in memory
    requires var e := memory[table][SlotOf(va, 1)]; e.present && e.user
    ensures var e := memory[table][SlotOf(va, 1)];
            Walk(memory, top, 4, va) == Some(Translation(e.address + va % 0x1000, true, e.writable))
    ensures !EndsHuge(memory, top, 4, va)
  {
    hide SlotOf;
    assert Walk(memory, table, 1, va).Some? && !EndsHuge(memory, table, 1, va);
    assert Walk(memory, directory, 2, va).Some? && !EndsHuge(memory, directory, 2, va);
    assert Walk(memory, pdpt, 3, va).Some? && !EndsHuge(memory, pdpt, 3, va);
  }

  lemma SameLeaf(va: nat, other: nat)
    requires PageOf(other) == PageOf(va)
    ensures forall level :: 1 <= level <= 4 ==> SlotOf(other, level) == SlotOf(va, level)
  {
    var n := va / 0x1000;
    assert other / 0x1000 == n;
    assert va / 0x20_0000 == n / 512 && other / 0x20_0000 == n / 512;
    assert va / 0x4000_0000 == n / 262144 && other / 0x4000_0000 == n / 262144;
    assert va / 0x80_0000_0000 == n / 134217728 && other / 0x80_0000_0000 == n / 134217728;
  }

  /** The walk through two tables above a directory. */
  lemma WalkAtDirectory(memory: Memory, top: nat, pdpt: nat, directory: nat, va: nat)
    requires Leads(memory, top, 4, va, pdpt) && Leads(memory, pdpt, 3, va, directory) && directory in memory
    ensures var e := memory[directory][SlotOf(va, 2)];
            && (EndsHuge(memory, top, 4, va) <==> e.present && e.huge)
            && (e.present && e.huge ==>
                  var w := Walk(memory, top, 4, va);
                  && w.Some? && w.value.physical == e.address + va % 0x20_0000 && w.value.writable == e.writable
                  && (e.user ==> Passes(memory, top, 4, va, pdpt) && Passes(memory, pdpt, 3, va, directory) ==>
                       w.value.user)
                  && (!e.user ==> !w.value.user))
  {
    hide SlotOf;
    var e := memory[directory][SlotOf(va, 2)];
    assert EndsHuge(memory, directory, 2, va) <==> e.present && e.huge;
    assert EndsHuge(memory, pdpt, 3, va) <==> EndsHuge(memory, directory, 2, va);
    if e.present && e.huge {
      assert Walk(memory, directory, 2, va) == Some(Translation(e.address + va % 0x20_0000, e.user, e.writable));
      assert Walk(memory, pdpt, 3, va).Some?;
    }
  }

  // ----- frames -----

  /** The frame at this address was given out by the allocator. */
  ghost predicate Held(base: nat, bits: seq<bool>, address: nat) {
    base <= address && (address - base) % 4096 == 0 && (address - base) / 4096 < |bits| && bits[(address - base) / 4096]
  }

  ghost predicate AllHeld(base: nat, bits: seq<bool>, addresses: set<nat>) {
    forall a :: a in addresses ==> Held(base, bits, a)
  }

  /** A frame just found free is none of those given out, which stay given out. */
  lemma NewFrame(base: nat, bits: seq<bool>, addresses: set<nat>, start: nat)
    requires base % 4096 == 0 && AllHeld(base, bits, addresses) && FreeRun(bits, start, 1)
    ensures base + start * 4096 !in addresses && (base + start * 4096) % 4096 == 0
    ensures AllHeld(base, WithRun(bits, start, 1, true), addresses + {base + start * 4096})
  {
  }

  lemma HeldAt(base: nat, bits: seq<bool>, all: set<nat>, address: nat)
    requires AllHeld(base, bits, all) && address in all
    ensures base <= address < base + |bits| * 4096
  {
    assert Held(base, bits, address);
  }

  lemma HeldSubset(base: nat, bits: seq<bool>, some: set<nat>, all: set<nat>)
    requires some <= all && AllHeld(base, bits, all)
    ensures AllHeld(base, bits, some)
  {
  }

  // ----- runs of pages -----

  /** Every 2 MiB page from `low` to `high` is among these, by the address bits that a walk looks at. */
  ghost predicate Spanned(pages: set<nat>, low: nat, high: nat) {
    && low % 0x20_0000 == 0 && high % 0x20_0000 == 0
    && forall page: nat :: page % 0x20_0000 == 0 && low <= page < high ==> page % HIGHEST in pages
  }

  lemma SpannedByMore(pages: set<nat>, more: set<nat>, low: nat, high: nat)
    requires Spanned(pages, low, high) && pages <= more
    ensures Spanned(more, low, high)
  {
  }

  lemma SpansOneMore(pages: set<nat>, low: nat, high: nat)
    requires Spanned(pages, low, high) && high % HIGHEST in pages
    ensures Spanned(pages, low, high + 0x20_0000)
  {
    forall page: nat | page % 0x20_0000 == 0 && low <= page < high + 0x20_0000 ensures page % HIGHEST in pages {
    }
  }

  lemma NothingSpanned(pages: set<nat>, low: nat, high: nat)
    requires low % 0x20_0000 == 0 && high % 0x20_0000 == 0 && high <= low
    ensures Spanned(pages, low, high)
  {
  }

  /** Rounded up to 2 MiB, in 64-bit arithmetic. */
  function RoundUp(end: nat): nat {
    CeilDiv(end, 0x20_0000) * 0x20_0000 % TWO_64
  }

  /** The whole 2 MiB pages around a device's registers; none, if rounding up passes 2^64. */
  function WindowOf(physical: nat, length: nat): Window {
    Window(HugeBase(physical), RoundUp(physical + length))
  }

  lemma WindowIsWhole(physical: nat, length: nat)
    ensures var w := WindowOf(physical, length); w.start % 0x20_0000 == 0 && w.end % 0x20_0000 == 0
    ensures physical + length <= HIGHEST ==> physical + length <= WindowOf(physical, length).end <= HIGHEST
    ensures WindowOf(physical, length).end < TWO_64
    ensures length > 0 && physical + length < TWO_64 ==>
              var w := WindowOf(physical, length); w.end == 0 || w.start <= physical < physical + length <= w.end
  {
    hide CeilDiv, RoundUp, HugeBase;
    RoundUpIsWhole(physical + length);
    BaseAndRest(physical);
    HugeBaseIsWhole(physical);
  }

  lemma HugeBaseIsWhole(va: nat)
    ensures HugeBase(va) % 0x20_0000 == 0
  {
  }

  lemma RoundUpIsWhole(end: nat)
    ensures RoundUp(end) % 0x20_0000 == 0 && RoundUp(end) < TWO_64
    ensures end < TWO_64 ==> RoundUp(end) == 0 || end <= RoundUp(end) < end + 0x20_0000
    ensures end <= HIGHEST ==> end <= RoundUp(end) <= HIGHEST
  {
    hide CeilDiv;
    var n := CeilDiv(end, 0x20_0000);
    WholeAfterWrap(n);
  }

  lemma WholeAfterWrap(n: nat)
    ensures n * 0x20_0000 % TWO_64 % 0x20_0000 == 0
    ensures n < 0x800_0000_0000 ==> n * 0x20_0000 % TWO_64 == n * 0x20_0000
    ensures n == 0x800_0000_0000 ==> n * 0x20_0000 % TWO_64 == 0
  {
    var laps := n * 0x20_0000 / TWO_64;
    assert n * 0x20_0000 % TWO_64 == (n - laps * 0x800_0000_0000) * 0x20_0000;
  }

  /** The address bits that an entry has room for. */
  function FrameOf(page: nat): nat {
    page % 0x10_0000_0000_0000
  }

  /** What each page of a device leads to after these have been mapped, one by one. */
  function HomesAfter(homes: map<nat, nat>, start: nat, end: nat): map<nat, nat>
    decreases end
  {
    if end < start + 0x20_0000 then homes
    else
      var last: nat := end - 0x20_0000;
      HomesAfter(homes, start, last)[last % HIGHEST := FrameOf(last)]
  }

  /** The last page with some lower 48 bits decides where those lead. */
  lemma {:induction false} HomesAfterAt(homes: map<nat, nat>, start: nat, end: nat, page: nat)
    requires start % 0x20_0000 == 0 && page % 0x20_0000 == 0 && end % 0x20_0000 == 0
    requires start <= page && page + 0x20_0000 <= end <= page + HIGHEST
    ensures page % HIGHEST in HomesAfter(homes, start, end)
    ensures HomesAfter(homes, start, end)[page % HIGHEST] == FrameOf(page)
    decreases end
  {
    hide FrameOf;
    var last: nat := end - 0x20_0000;
    if last > page {
      HomesAfterAt(homes, start, last, page);
      NotAliases(page, last);
    }
  }

  lemma NotAliases(page: nat, other: nat)
    requires page < other < page + HIGHEST
    ensures page % HIGHEST != other % HIGHEST
  {
  }

  /** Pages below 2^48 lead to themselves. */
  lemma {:induction false} LowHomes(homes: map<nat, nat>, start: nat, end: nat)
    requires forall page :: page in homes ==> homes[page] == page
    ensures end <= HIGHEST ==> forall page :: page in HomesAfter(homes, start, end) ==>
              HomesAfter(homes, start, end)[page] == page
    decreases end
  {
    if end >= start + 0x20_0000 {
      LowHomes(homes, start, end - 0x20_0000);
    }
  }

  /** The pages of user code that are not covered by any of these. */
  function YardAfter(yard: set<nat>, start: nat, end: nat): set<nat>
    decreases end
  {
    if end < start + 0x20_0000 then yard
    else Beyond(YardAfter(yard, start, end - 0x20_0000), (end - 0x20_0000) % HIGHEST)
  }

  /** Some page of these has this address in its lower 48 bits. */
  ghost predicate Aliased(va: nat, start: nat, end: nat) {
    exists n: nat :: start <= Far(n, va) < end
  }

  function Far(n: nat, va: nat): nat {
    n * 0x1_0000_0000_0000 + va
  }

  /** Other than under these pages, whatever translated does so to the same thing, and nothing else does. */
  ghost predicate KeepsUnaliased(memory: Memory, memory': Memory, top: nat, start: nat, end: nat) {
    forall va :: 0 <= va < HIGHEST && !Aliased(va, start, end) ==> Walk(memory', top, 4, va) == Walk(memory, top, 4, va)
  }

  lemma AliasesNothing(memory: Memory, top: nat, start: nat)
    ensures KeepsUnaliased(memory, memory, top, start, start)
  {
  }

  lemma KeepsOneMore(a: Memory, b: Memory, c: Memory, top: nat, start: nat, page: nat)
    requires page % 0x20_0000 == 0 && start <= page
    requires KeepsUnaliased(a, b, top, start, page)
    requires KeepsOutside(b, c, top, page % HIGHEST, page % HIGHEST + 0x20_0000)
    ensures KeepsUnaliased(a, c, top, start, page + 0x20_0000)
  {
    hide Walk;
    var n := page / 0x1_0000_0000_0000;
    assert page == Far(n, page % HIGHEST);
    forall va | 0 <= va < HIGHEST && !Aliased(va, start, page + 0x20_0000)
      ensures Walk(c, top, 4, va) == Walk(a, top, 4, va)
    {
      if page % HIGHEST <= va < page % HIGHEST + 0x20_0000 {
        assert Far(n, va) == page + (va - page % HIGHEST);
        assert start <= Far(n, va) < page + 0x20_0000;
      }
    }
  }

  /** No 2 MiB page lies in the yard's slot. */
  ghost predicate YardClear(homes: map<nat, nat>) {
    forall page :: page in homes ==> !InYard(page)
  }

  /** None of these pages has the yard's slot in its lower 48 bits. */
  ghost predicate AvoidsYard(start: nat, end: nat) {
    forall page: nat :: page % 0x20_0000 == 0 && start <= page < end ==> !InYard(page % HIGHEST)
  }

  /** Mapping pages leaves the yard clear exactly if it was and they avoid it. */
  lemma {:induction false} ClearAfter(homes: map<nat, nat>, start: nat, end: nat)
    requires start % 0x20_0000 == 0 && end % 0x20_0000 == 0
    ensures YardClear(HomesAfter(homes, start, end)) <==> YardClear(homes) && AvoidsYard(start, end)
    decreases end
  {
    hide InYard, FrameOf, YardClear;
    if end >= start + 0x20_0000 {
      var last: nat := end - 0x20_0000;
      ClearAfter(homes, start, last);
      AvoidsOneMore(start, last);
      OneMoreClear(HomesAfter(homes, start, last), last % HIGHEST, FrameOf(last));
    }
  }

  lemma OneMoreClear(homes: map<nat, nat>, page: nat, physical: nat)
    ensures YardClear(homes[page := physical]) <==> YardClear(homes) && !InYard(page)
  {
    hide InYard;
    var more := homes[page := physical];
    assert page in more;
    assert forall other :: other in homes ==> other in more;
  }

  lemma AvoidsOneMore(start: nat, last: nat)
    requires start % 0x20_0000 == 0 && last % 0x20_0000 == 0 && start <= last
    ensures AvoidsYard(start, last + 0x20_0000) <==> AvoidsYard(start, last) && !InYard(last % HIGHEST)
  {
    hide InYard;
  }

  lemma AvoidsFewer(start: nat, upTo: nat, end: nat)
    requires AvoidsYard(start, end) && (start < upTo ==> upTo <= end)
    ensures AvoidsYard(start, upTo)
  {
    hide InYard;
  }

  /** A window below 2^48 avoids it exactly when it lies below the slot or above it. */
  lemma AvoidsYardIff(start: nat, end: nat)
    requires start % 0x20_0000 == 0 && end % 0x20_0000 == 0 && start < end <= HIGHEST
    ensures AvoidsYard(start, end) <==> end <= 32 * 0x80_0000_0000 || 33 * 0x80_0000_0000 <= start
  {
    if start < 33 * 0x80_0000_0000 && end > 32 * 0x80_0000_0000 {
      var page: nat := if start < 32 * 0x80_0000_0000 then 32 * 0x80_0000_0000 else start;
      assert page % 0x20_0000 == 0 && start <= page < end && InYard(page % HIGHEST);
    }
  }

  lemma BaseStaysInYard(va: nat)
    ensures InYard(HugeBase(va)) <==> InYard(va)
  {
    var n := va / 0x20_0000;
    assert va / 0x80_0000_0000 == n / 262144 && n * 0x20_0000 / 0x80_0000_0000 == n / 262144;
  }

  lemma LowIsOutside(homes: map<nat, nat>, bound: nat)
    requires Within(homes, bound) && bound <= 512 * GIB
    ensures YardClear(homes)
  {
  }

  lemma LowPart(page: nat)
    requires page % 0x20_0000 == 0
    ensures var low := page % HIGHEST;
            && low % 0x20_0000 == 0 && low + 0x20_0000 <= HIGHEST && HugeBase(low) == low
            && SlotOf(page, 4) == SlotOf(low, 4) && SlotOf(page, 3) == SlotOf(low, 3)
            && SlotOf(page, 2) == SlotOf(low, 2)
            && (page < HIGHEST ==> low == page == FrameOf(page))
  {
    hide SlotOf;
    var n, low := page / 0x1_0000_0000_0000, page % HIGHEST;
    assert page == n * 0x1_0000_0000_0000 + low;
    SlotIgnoresHighBits(n, low, 4);
    SlotIgnoresHighBits(n, low, 3);
    SlotIgnoresHighBits(n, low, 2);
  }

  lemma LowSlots(va: nat)
    ensures forall level :: 1 <= level <= 4 ==> SlotOf(va, level) == SlotOf(va % HIGHEST, level)
  {
    hide SlotOf;
    var n, low := va / 0x1_0000_0000_0000, va % HIGHEST;
    assert va == n * 0x1_0000_0000_0000 + low;
    forall level | 1 <= level <= 4 ensures SlotOf(va, level) == SlotOf(low, level) {
      SlotIgnoresHighBits(n, low, level);
    }
  }

  lemma SlotIgnoresHighBits(n: nat, low: nat, level: nat)
    requires 1 <= level <= 4
    ensures SlotOf(n * 0x1_0000_0000_0000 + low, level) == SlotOf(low, level)
  {
    if level == 4 {
      TopQuotient(n, low);
      DropsMultiple(n, low / 0x80_0000_0000);
    } else if level == 3 {
      MiddleQuotient(n, low);
      DropsMultiple(n * 512, low / 0x4000_0000);
    } else if level == 2 {
      LowQuotient(n, low);
      DropsMultiple(n * 512 * 512, low / 0x20_0000);
    } else {
      LeafQuotient(n, low);
      DropsMultiple(n * 512 * 512 * 512, low / 0x1000);
    }
  }

  lemma DropsMultiple(a: nat, y: nat)
    ensures (a * 512 + y) % 512 == y % 512
  {
  }

  lemma TopQuotient(n: nat, low: nat)
    ensures (n * 0x1_0000_0000_0000 + low) / 0x80_0000_0000 == n * 512 + low / 0x80_0000_0000
  {
  }

  lemma MiddleQuotient(n: nat, low: nat)
    ensures (n * 0x1_0000_0000_0000 + low) / 0x4000_0000 == n * 512 * 512 + low / 0x4000_0000
  {
  }

  lemma LowQuotient(n: nat, low: nat)
    ensures (n * 0x1_0000_0000_0000 + low) / 0x20_0000 == n * 512 * 512 * 512 + low / 0x20_0000
  {
  }

  lemma LeafQuotient(n: nat, low: nat)
    ensures (n * 0x1_0000_0000_0000 + low) / 0x1000 == n * 512 * 512 * 512 * 512 + low / 0x1000
  {
  }

  // ----- bring-up -----

  const MAX_GIB: nat := 512

  function EndOf(r: Region): (end: nat)
    ensures end == r.start + 4096 * r.pages < TWO_64 || end == TWO_64 - 1 < r.start + 4096 * r.pages
  {
    var end := r.start + r.pages * 4096;
    if end < TWO_64 then end else TWO_64 - 1
  }

  /** Enough to cover 4 GiB, the framebuffer, and every region that one directory pointer table can. */
  ghost predicate Suffices(gibibytes: nat, regions: seq<Region>, framebufferEnd: nat) {
    && 4 <= gibibytes <= 512
    && (forall r :: r in regions && EndOf(r) <= 0x80_0000_0000 ==> EndOf(r) <= gibibytes * 0x4000_0000)
    && (framebufferEnd <= gibibytes * 0x4000_0000 || gibibytes == 512)
  }

  /** And no more than that: the last one holds something, unless it is the fourth. */
  ghost predicate Needed(gibibytes: nat, regions: seq<Region>, framebufferEnd: nat) {
    || gibibytes == 4
    || framebufferEnd > (gibibytes - 1) * 0x4000_0000
    || exists r :: r in regions && (gibibytes - 1) * 0x4000_0000 < EndOf(r) <= 0x80_0000_0000
  }

  method GibibytesToCover(regions: seq<Region>, framebufferEnd: nat) returns (gibibytes: nat)
    ensures Suffices(gibibytes, regions, framebufferEnd) && Needed(gibibytes, regions, framebufferEnd)
  {
    var highest := 4 * GIB;
    for i := 0 to |regions|
      invariant 4 * GIB <= highest <= MAX_GIB * GIB
      invariant highest == 4 * GIB || exists r :: r in regions && EndOf(r) == highest
      invariant forall j :: 0 <= j < i && EndOf(regions[j]) <= MAX_GIB * GIB ==> EndOf(regions[j]) <= highest
    {
      var end := EndOf(regions[i]);
      if end <= MAX_GIB * GIB && end > highest {
        highest := end;
      }
    }
    var framebuffer := if framebufferEnd < MAX_GIB * GIB then framebufferEnd else MAX_GIB * GIB;
    if framebuffer > highest {
      highest := framebuffer;
    }
    gibibytes := CeilDiv(highest, GIB);
    if gibibytes > MAX_GIB {
      gibibytes := MAX_GIB;
    }
  }

  /** A lone empty top-level table is in shape. */
  lemma BareTop(memory: Memory, top: nat)
    requires top in memory && memory[top] == EMPTY
    ensures var l := Layout(map[Place(4, 0) := top], {}, {}, map[]);
            && Shape(memory, top, l) && Secluded(memory, l.tables)
            && AllReached(memory, top, l.homes.Keys) && Open(memory, top, l.yard)
  {
  }

  lemma EmptyHasNothing(i: nat)
    requires i < 512
    ensures !EMPTY[i].present
  {
  }

  /** The first top-level entry leads to the directory pointer table, which is filled up to here. */
  ghost predicate OnIdentityPath(memory: Memory, l: Layout, pml4: nat, pdpt: nat, gibibyte: nat) {
    && Place(4, 0) in l.tables && l.tables[Place(4, 0)] == pml4
    && Place(3, 0) in l.tables && l.tables[Place(3, 0)] == pdpt
    && l.yard == {} && l.data == {}
    && (forall page :: page in l.homes ==> l.homes[page] == page)
    && pml4 in memory && (var e := memory[pml4][0]; e.present && !e.huge && e.writable && e.address == pdpt)
    && pdpt in memory && forall g :: gibibyte <= g < 512 ==> !memory[pdpt][g].present
  }

  /** There are no 2 MiB pages from this address up. */
  ghost predicate Within(homes: map<nat, nat>, bound: nat) {
    forall page :: page in homes ==> page + 0x20_0000 <= bound
  }

  lemma WithinAt(homes: map<nat, nat>, bound: nat, page: nat)
    requires Within(homes, bound) && page in homes
    ensures page + 0x20_0000 <= bound
  {
  }

  lemma WithinMore(homes: map<nat, nat>, page: nat, physical: nat)
    requires Within(homes, page)
    ensures Within(homes[page := physical], page + 0x20_0000)
  {
  }

  /** The directory of this gibibyte. */
  ghost predicate DirectoryFor(memory: Memory, l: Layout, pdpt: nat, directory: nat, gibibyte: nat)
    requires gibibyte < 512
  {
    && Place(2, gibibyte * GIB) in l.tables && l.tables[Place(2, gibibyte * GIB)] == directory
    && pdpt in memory && (var e := memory[pdpt][gibibyte]; e.present && !e.huge && e.writable && e.address == directory)
  }

  lemma AtLeastFour(gibibytes: nat, regions: seq<Region>, framebufferEnd: nat)
    requires Suffices(gibibytes, regions, framebufferEnd)
    ensures 4 <= gibibytes <= 512
  {
  }

  /** Where an identity-mapped huge page goes. */
  lemma IdentitySlots(gibibyte: nat, index: nat)
    requires gibibyte < 512 && index < 512
    ensures var page := gibibyte * GIB + index * HUGE_PAGE;
            && page % 0x20_0000 == 0 && page + 0x20_0000 <= HIGHEST && page % HIGHEST == page
            && SlotOf(page, 4) == 0 && SlotOf(page, 3) == gibibyte && SlotOf(page, 2) == index
            && Covered(Place(2, gibibyte * GIB), index) == page
    ensures Covered(Place(3, 0), gibibyte) == gibibyte * GIB
  {
    var page := gibibyte * GIB + index * HUGE_PAGE;
    assert page == (gibibyte * 512 + index) * 0x20_0000;
    assert page / 0x4000_0000 == gibibyte;
    assert page / 0x80_0000_0000 == 0;
  }

  lemma PageIsReached(pages: set<nat>, low: nat, high: nat, va: nat)
    requires Spanned(pages, low, high) && low <= va < high
    ensures HugeBase(va) % HIGHEST in pages
  {
    assert HugeBase(va) % 0x20_0000 == 0 && low <= HugeBase(va) < high;
  }

  /** The 2 MiB page of the lower 48 bits is the lower 48 bits of the 2 MiB page. */
  lemma BaseOfLow(va: nat)
    ensures HugeBase(va) % HIGHEST == HugeBase(va % HIGHEST)
    ensures va % 0x20_0000 == va % HIGHEST % 0x20_0000
  {
    hide HugeBase;
    var n, low := va / 0x1_0000_0000_0000, va % 0x1_0000_0000_0000;
    BaseAbove(n, low);
    BaseAndRest(va);
    BaseAndRest(low);
    RestIsLow(n, HugeBase(low));
  }

  lemma BaseAbove(n: nat, low: nat)
    ensures HugeBase(n * 0x1_0000_0000_0000 + low) == n * 0x1_0000_0000_0000 + HugeBase(low)
  {
    LowQuotient(n, low);
  }

  lemma RestIsLow(n: nat, low: nat)
    requires low < 0x1_0000_0000_0000
    ensures (n * 0x1_0000_0000_0000 + low) % 0x1_0000_0000_0000 == low
  {
  }

  lemma ReachedTranslates(memory: Memory, top: nat, pages: set<nat>, va: nat)
    requires AllReached(memory, top, pages) && HugeBase(va) in pages
    ensures va < HIGHEST && HugeWalk(memory, top, va)
  {
    hide Walk, EndsHuge;
    assert Reached(memory, top, HugeBase(va));
  }

  /** What a present entry above the leaves must be. */
  lemma LinkSays(memory: Memory, top: nat, l: Layout, p: Place, i: nat)
    requires Shape(memory, top, l) && p in l.tables && i < 512 && memory[l.tables[p]][i].present && p.level >= 2
    ensures var e := memory[l.tables[p]][i];
            if e.huge then p.level == 2 else Linked(memory, l, p, i, e.address, false)
  {
    hide GoodPlace, Covered;
    assert Fits(memory[l.tables[p]][i], p, i, l);
  }

  /** The same but for tables below this level. */
  ghost predicate Above(l: Layout, l': Layout, level: nat) {
    && l'.yard == l.yard && l'.data == l.data && l'.homes == l.homes
    && forall p :: p in l.tables && p.level >= level ==> p in l'.tables && l'.tables[p] == l.tables[p]
  }

  /** Nothing that translated has changed, and there are no new 2 MiB pages. */
  ghost predicate Undisturbed(memory: Memory, memory': Memory, tables: map<Place, nat>, top: nat) {
    && Grows(memory, memory', tables, 0, 0)
    && SameHuge(memory, memory', top)
    && KeepsOutside(memory, memory', top, 0, 0)
  }

  lemma NothingDisturbed(memory: Memory, tables: map<Place, nat>, top: nat)
    ensures Undisturbed(memory, memory, tables, top)
  {
  }

  lemma WiderKeeps(memory: Memory, memory': Memory, top: nat, start: nat, end: nat)
    requires KeepsOutside(memory, memory', top, 0, 0)
    ensures KeepsOutside(memory, memory', top, start, end)
  {
    hide Walk;
  }

  /** The entry leads to the table at the place below. */
  ghost predicate Linked(memory: Memory, l: Layout, p: Place, i: nat, next: nat, user: bool)
    requires 2 <= p.level <= 4
  {
    && Place(p.level - 1, Covered(p, i)) in l.tables && l.tables[Place(p.level - 1, Covered(p, i))] == next
    && p in l.tables && l.tables[p] in memory && i < 512
    && (var e := memory[l.tables[p]][i]; e.present && !e.huge && e.writable && e.address == next && (user ==> e.user))
  }

  /** Where the 2 MiB page behind this address starts. */
  function FrameBehind(memory: Memory, top: nat, va: nat): nat {
    var w := Walk(memory, top, 4, va);
    if w.Some? && w.value.physical >= va % 0x20_0000 then w.value.physical - va % 0x20_0000 else 0
  }

  /** The address translated for the kernel alone, and now does so for user code. */
  predicate Exposed(memory: Memory, memory': Memory, top: nat, va: nat) {
    var w := Walk(memory, top, 4, va);
    w.Some? && !w.value.user && Walk(memory', top, 4, va) == Some(w.value.(user := true))
  }

  lemma StaysExposed(before: Memory, memory: Memory, top: nat, va: nat, t: nat, i: nat, e: Entry)
    requires Exposed(before, memory, top, va) && t in memory && i < 512
    ensures !Looks(memory, top, 4, va, t, i) ==> Exposed(before, Put(memory, t, i, e), top, va)
  {
    hide Walk, Looks;
    if !Looks(memory, top, 4, va, t, i) {
      WalkUnread(memory, top, 4, va, t, i, e);
    }
  }

  lemma TablesDiffer(memory: Memory, top: nat, l: Layout, p: Place, q: Place)
    requires Shape(memory, top, l) && p in l.tables && q in l.tables && p != q
    ensures l.tables[p] != l.tables[q]
  {
  }

  lemma FirstEntry()
    ensures Covered(Place(4, 0), 0) == 0
  {
  }

  lemma HomesOnPath(memory: Memory, l: Layout, pml4: nat, pdpt: nat, gibibyte: nat)
    requires OnIdentityPath(memory, l, pml4, pdpt, gibibyte)
    ensures forall page :: page in l.homes ==> l.homes[page] == page
  {
  }

  lemma OthersReached(memory: Memory, memory': Memory, top: nat, l: Layout, page: nat, pages: set<nat>)
    requires Shape(memory, top, l) && page % 0x20_0000 == 0 && Grows(memory, memory', l.tables, page, page + 0x20_0000)
    requires AllReached(memory, top, pages)
    ensures AllReached(memory', top, pages - {page})
  {
    hide Shape, Grows, Walk, EndsHuge;
    forall other | other in pages - {page} ensures other + 0x20_0000 <= page || page + 0x20_0000 <= other {
      assert Reached(memory, top, other);
    }
    ReachedPersists(memory, memory', top, l, page, page + 0x20_0000, pages - {page});
  }

  lemma ReachedOneMore(memory: Memory, top: nat, pages: set<nat>, page: nat)
    requires AllReached(memory, top, pages - {page}) && Reached(memory, top, page)
    ensures AllReached(memory, top, pages + {page})
  {
    hide Reached;
    forall other | other in pages + {page} ensures Reached(memory, top, other) {
      assert other == page || other in pages - {page};
    }
  }

  lemma FewerOpen(memory: Memory, top: nat, yard: set<nat>, fewer: set<nat>)
    requires Open(memory, top, yard) && fewer <= yard
    ensures Open(memory, top, fewer)
  {
    hide UserWalk;
  }

  lemma OpenBeyond(memory: Memory, top: nat, yard: set<nat>, page: nat)
    requires Open(memory, top, yard)
    ensures Open(memory, top, Beyond(yard, page))
  {
    FewerOpen(memory, top, yard, Beyond(yard, page));
  }

  lemma NothingMapped(homes: map<nat, nat>, yard: set<nat>, start: nat)
    ensures HomesAfter(homes, start, start) == homes && YardAfter(yard, start, start) == yard
  {
  }

  lemma OneMorePage(homes: map<nat, nat>, yard: set<nat>, start: nat, page: nat)
    requires start <= page
    ensures HomesAfter(homes, start, page + 0x20_0000) ==
              HomesAfter(homes, start, page)[page % HIGHEST := FrameOf(page)]
    ensures YardAfter(yard, start, page + 0x20_0000) == Beyond(YardAfter(yard, start, page), page % HIGHEST)
  {
    assert page + 0x20_0000 - 0x20_0000 == page;
  }

  lemma KeepsNoMore(a: Memory, b: Memory, c: Memory, top: nat, start: nat, page: nat)
    requires KeepsUnaliased(a, b, top, start, page) && KeepsOutside(b, c, top, 0, 0)
    ensures KeepsUnaliased(a, c, top, start, page)
  {
    hide Walk, Aliased;
  }

  /** The directory of this address, under the table above it. */
  ghost predicate OnDirectoryPath(memory: Memory, l: Layout, top: nat, pdpt: nat, directory: nat, va: nat, user: bool) {
    && PlaceOf(va, 3) in l.tables && l.tables[PlaceOf(va, 3)] == pdpt
    && PlaceOf(va, 2) in l.tables && l.tables[PlaceOf(va, 2)] == directory
    && directory in memory && directory != top && directory != pdpt
    && Leads(memory, top, 4, va, pdpt) && Leads(memory, pdpt, 3, va, directory)
    && (user ==> Passes(memory, top, 4, va, pdpt) && Passes(memory, pdpt, 3, va, directory))
  }

  lemma SameHugeAt(memory: Memory, memory': Memory, top: nat, va: nat)
    requires SameHuge(memory, memory', top) && va < HIGHEST
    ensures EndsHuge(memory', top, 4, va) <==> EndsHuge(memory, top, 4, va)
  {
    hide EndsHuge;
  }

  /** A walk that ends in a 2 MiB page finds its way to it. */
  lemma FirstPresent(memory: Memory, t: nat, level: nat, va: nat)
    requires 2 <= level <= 4
    ensures EndsHuge(memory, t, level, va) ==> t in memory && memory[t][SlotOf(va, level)].present
  {
  }

  lemma HugeBelow(memory: Memory, t: nat, level: nat, va: nat)
    requires 2 <= level <= 4 && EndsHuge(memory, t, level, va) && !memory[t][SlotOf(va, level)].huge
    ensures EndsHuge(memory, memory[t][SlotOf(va, level)].address, level - 1, va)
  {
  }

  lemma {:induction false} UserBitKeepsEnds(memory: Memory, t: nat, i: nat, table: nat, level: nat, va: nat)
    requires t in memory && i < 512 && level <= 4
    ensures EndsHuge(Put(memory, t, i, memory[t][i].(user := true)), table, level, va) <==>
              EndsHuge(memory, table, level, va)
    decreases level
  {
    hide SlotOf;
    if level > 1 && table in memory {
      UserBitKeepsEnds(memory, t, i, memory[table][SlotOf(va, level)].address, level - 1, va);
    }
  }

  lemma KeepsHuge(memory: Memory, memory': Memory, top: nat, va: nat)
    requires KeepsOutside(memory, memory', top, 0, 0) && va < HIGHEST && EndsHuge(memory, top, 4, va)
    ensures FrameBehind(memory', top, va) == FrameBehind(memory, top, va)
    ensures forall later :: Exposed(memory', later, top, va) ==> Exposed(memory, later, top, va)
  {
    hide Walk, EndsHuge;
    HugeTranslates(memory, top, 4, va);
  }

  lemma HugeIsKernels(memory: Memory, top: nat, l: Layout, p: Place, va: nat)
    requires Shape(memory, top, l) && p in l.tables && p.level == 2
    ensures l.tables[p] in memory
    ensures var e := memory[l.tables[p]][SlotOf(va, 2)]; e.present && e.huge ==> !e.user
  {
    hide GoodPlace, SlotOf;
    if memory[l.tables[p]][SlotOf(va, 2)].present {
      assert Fits(memory[l.tables[p]][SlotOf(va, 2)], p, SlotOf(va, 2), l);
    }
  }

  /** The tables on this path are those for this address, and pass user code on. */
  ghost predicate OnYardPath(memory: Memory, l: Layout, top: nat, path: Path, va: nat) {
    && PlaceOf(va, 1) in l.tables && l.tables[PlaceOf(va, 1)] == path.table
    && path.table in memory && path.table != top && path.table != path.pdpt && path.table != path.directory
    && Passes(memory, top, 4, va, path.pdpt) && Passes(memory, path.pdpt, 3, va, path.directory)
    && Passes(memory, path.directory, 2, va, path.table)
  }

  lemma ReachedAvoidsLeaf(memory: Memory, top: nat, pages: set<nat>, va: nat)
    requires AllReached(memory, top, pages) && !EndsHuge(memory, top, 4, va)
    ensures Clear(pages, PageOf(va), PageOf(va) + 0x1000)
  {
    hide Walk, EndsHuge;
    forall page | page in pages ensures page + 0x20_0000 <= PageOf(va) || PageOf(va) + 0x1000 <= page {
      ReachedEndsHuge(memory, top, page, va);
      PageEdges(page, va);
    }
  }

  lemma ReachedEndsHuge(memory: Memory, top: nat, page: nat, va: nat)
    requires Reached(memory, top, page)
    ensures page % 0x20_0000 == 0
    ensures page <= va < page + 0x20_0000 ==> EndsHuge(memory, top, 4, va)
  {
    hide Walk, EndsHuge;
    assert page <= va < page + 0x20_0000 ==> HugeWalk(memory, top, va);
  }

  lemma PageEdges(page: nat, va: nat)
    requires page % 0x20_0000 == 0 && !(page <= va < page + 0x20_0000)
    ensures page + 0x20_0000 <= PageOf(va) || PageOf(va) + 0x1000 <= page
  {
    var k, m := page / 0x20_0000, va / 0x1000;
    assert page == k * 512 * 0x1000;
    assert m * 0x1000 <= va < m * 0x1000 + 0x1000;
    assert m < k * 512 || k * 512 + 512 <= m;
  }

  /** All of a page is open once one address of it is. */
  lemma OpensPage(memory: Memory, top: nat, path: Path, yard: set<nat>, va: nat)
    requires Open(memory, top, yard - {PageOf(va)})
    requires Passes(memory, top, 4, va, path.pdpt) && Passes(memory, path.pdpt, 3, va, path.directory)
    requires Passes(memory, path.directory, 2, va, path.table) && path.table in memory
    requires var e := memory[path.table][SlotOf(va, 1)]; e.present && e.user
    ensures Open(memory, top, yard + {PageOf(va)})
  {
    hide SlotOf, PageOf, Walk, EndsHuge;
    forall other | 0 <= other < HIGHEST && PageOf(other) in yard + {PageOf(va)} ensures UserWalk(memory, top, other) {
      if PageOf(other) == PageOf(va) {
        SameLeaf(va, other);
        UserPath(memory, top, path.pdpt, path.directory, path.table, other);
      }
    }
  }

  lemma BaseAndRest(va: nat)
    ensures va == HugeBase(va) + va % 0x20_0000
  {
  }

  // ----- runs -----

  /** The calls that change the map after bring-up. */
  datatype Mapping = YardPage(va: u64, writable: bool) | Device(physical: u64, length: u64)

  /** The yard for user code, and devices anywhere else. */
  ghost predicate Proper(call: Mapping) {
    match call
    case YardPage(va, _) => InYard(va)
    case Device(physical, length) => AvoidsYard(WindowOf(physical, length).start, WindowOf(physical, length).end)
  }

  /** A device whose registers, rounded to whole pages, end by 2^48. */
  predicate Near(call: Mapping) {
    call.Device? ==> WindowOf(call.physical, call.length).end <= HIGHEST
  }

  /** The pages that these calls ask for. */
  function Given(calls: seq<Mapping>): set<nat> {
    set call | call in calls && call.YardPage? :: PageOf(call.va)
  }

  lemma {:induction false} YardAfterIsLess(yard: set<nat>, start: nat, end: nat)
    ensures YardAfter(yard, start, end) <= yard
    decreases end
  {
    hide HugeBase;
    if end >= start + 0x20_0000 {
      YardAfterIsLess(yard, start, end - 0x20_0000);
    }
  }

  const YARD_BASE: nat := 0x1000_0000_0000

  lemma YardBaseWindow()
    ensures HugeBase(YARD_BASE) == YARD_BASE && FrameOf(YARD_BASE) == YARD_BASE && YARD_BASE % HIGHEST == YARD_BASE
    ensures WindowOf(YARD_BASE, 0x1000) == Window(YARD_BASE, YARD_BASE + 0x20_0000)
  {
  }

  class AddressSpace {
    const frames: BitmapAllocator
    var memory: Memory
    /** The active top-level table, or 0 while the firmware's map is live. */
    var root: nat
    var mapped: nat
    var windows: seq<Window>
    ghost var layout: Layout

    /** The allocator is in order, and every table and frame of user code is its. */
    ghost predicate Owned()
      reads this, frames, frames.bitmap
    {
      && frames.Valid()
      && (frames.base == 0 ==> frames.frames > 0 && frames.State()[0])
      && AllHeld(frames.base, frames.State(), memory.Keys + layout.data)
    }

    /** The tables under `top` are in shape. */
    ghost predicate Ready(top: nat)
      reads this, frames, frames.bitmap
    {
      && Owned()
      && Shape(memory, top, layout)
      && AllReached(memory, top, layout.homes.Keys)
      && Open(memory, top, layout.yard)
    }

    /** What is promised to be mapped is. */
    ghost predicate Promised()
      reads this
    {
      && Spanned(layout.homes.Keys, 0, mapped)
      && |windows| <= MAX_DEVICE_WINDOWS
      && forall w :: w in windows ==> Spanned(layout.homes.Keys, w.start, w.end)
    }

    ghost predicate Valid()
      reads this, frames, frames.bitmap
    {
      if root == 0 then Owned() && mapped == 0 && windows == [] && layout.yard == {} && layout.data == {}
      else Ready(root) && Promised()
    }

    /** No user bit outside the yard's slot, at any level. */
    ghost predicate Apart()
      reads this
    {
      Secluded(memory, layout.tables)
    }

    /** Every frame of the allocator is in use. */
    ghost predicate OutOfFrames()
      reads this, frames, frames.bitmap
    {
      frames.Valid() && forall f :: 0 <= f < frames.frames ==> frames.State()[f]
    }

    /** The tables are in shape, and the yard has its slot to itself. */
    ghost predicate Secure()
      reads this, frames, frames.bitmap
    {
      Valid() && root != 0 && Apart() && YardClear(layout.homes)
    }

    constructor (frames: BitmapAllocator)
      requires frames.Valid() && (frames.base == 0 ==> frames.frames > 0 && frames.State()[0])
      ensures Valid() && root == 0 && this.frames == frames
    {
      this.frames := frames;
      memory, root, mapped, windows := map[], 0, 0, [];
      layout := Layout(map[], {}, {}, map[]);
    }

    /** One frame from the allocator. */
    method AllocateFrame() returns (r: Option<nat>)
      requires Owned()
      modifies frames, frames.bitmap
      ensures Owned()
      ensures r.Some? ==> r.value !in memory && r.value !in layout.data && r.value > 0 && r.value % 4096 == 0
      ensures r.Some? ==> AllHeld(frames.base, frames.State(), memory.Keys + layout.data + {r.value})
      ensures r.None? ==> OutOfFrames()
    {
      hide AllHeld, FirstFit, NoRoom;
      ghost var bits := frames.State();
      r := frames.AllocateContiguous(1);
      if r.None? {
        NoRoomForOne(bits);
      }
      if r.Some? {
        ghost var start: nat :| r.value == frames.base + start * 4096 &&
          Gives(bits, old(frames.nextHint), start, 1, frames.State());
        NewFrame(frames.base, bits, memory.Keys + layout.data, start);
        HeldSubset(frames.base, frames.State(), memory.Keys + layout.data, memory.Keys + layout.data + {r.value});
      }
    }

    /** Is this entry a 2 MiB page? */
    predicate Over(t: nat, i: nat)
      reads this`memory
    {
      t in memory && i < 512 && memory[t][i].present && memory[t][i].huge
    }

    /** Hang a fresh, empty table in an absent entry. */
    method Hang(top: nat, t: nat, i: nat, user: bool, ghost p: Place) returns (r: Option<nat>)
      requires Ready(top) && p in layout.tables && layout.tables[p] == t && i < 512 && p.level >= 2
      requires !memory[t][i].present
      modifies this`memory, this`layout, frames, frames.bitmap
      ensures Ready(top) && Undisturbed(old(memory), memory, old(layout.tables), top)
      ensures r.None? ==> memory == old(memory) && layout == old(layout)
      ensures r.Some? ==>
                && r.value !in old(memory) && memory == Hung(old(memory), t, i, r.value, user)
                && layout == WithTable(old(layout), Place(p.level - 1, Covered(p, i)), r.value)
      ensures old(Apart()) && (user ==> InYard(Covered(p, i))) ==> Apart()
      ensures r.None? ==> OutOfFrames()
    {
      hide OutOfFrames;
      hide Shape, AllHeld, AllReached, Open, InYard, Covered, Grows, Secluded, SameHuge, KeepsOutside;
      TablesAreThere(memory, top, layout);
      NothingDisturbed(memory, layout.tables, top);
      r := AllocateFrame();
      if r.None? {
        return;
      }
      ghost var more := Hung(memory, t, i, r.value, user);
      NewTableKeepsShape(memory, top, layout, p, i, r.value, user);
      ReachedPersists(memory, more, top, layout, 0, 0, layout.homes.Keys);
      OpenPersists(memory, more, top, layout, 0, 0, layout.yard);
      GrowthKeepsOutside(memory, more, top, layout, 0, 0, 0, 0);
      GrowthKeepsHuge(memory, more, top, layout);
      memory := Hung(memory, t, i, r.value, user);
      layout := WithTable(layout, Place(p.level - 1, Covered(p, i)), r.value);
      assert memory.Keys + layout.data == old(memory.Keys) + layout.data + {r.value};
    }

    /** Step down one level, hanging a table there if the entry is absent. */
    method Descend(top: nat, t: nat, i: nat, user: bool, ghost p: Place) returns (r: Option<nat>)
      requires Ready(top) && p in layout.tables && layout.tables[p] == t && i < 512
      requires p.level >= if user then 2 else 3
      modifies this`memory, this`layout, frames, frames.bitmap
      ensures Owned() && (p.level >= 3 ==> !old(Over(t, i)))
      ensures old(memory)[t][i].present ==>
                && r == Some(old(memory)[t][i].address) && layout == old(layout)
                && memory == if user then Put(old(memory), t, i, old(memory)[t][i].(user := true)) else old(memory)
      ensures !old(Over(t, i)) ==>
                && Ready(top) && Undisturbed(old(memory), memory, old(layout.tables), top)
                && Above(old(layout), layout, p.level)
                && (r.Some? ==> Linked(memory, layout, p, i, r.value, user))
                && (old(Apart()) && (user ==> InYard(Covered(p, i))) ==> Apart())
      ensures r.None? ==> OutOfFrames()
    {
      hide OutOfFrames;
      hide Shape, AllHeld, AllReached, Open, InYard, Covered, Grows, Secluded, SameHuge, KeepsOutside;
      TablesAreThere(memory, top, layout);
      var existing := memory[t][i];
      if !existing.present {
        r := Hang(top, t, i, user, p);
        return;
      }
      LinkSays(memory, top, layout, p, i);
      NothingDisturbed(memory, layout.tables, top);
      if user {
        if !existing.huge {
          MarkUser(top, p, i);
        }
        memory := Put(memory, t, i, existing.(user := true));
        assert memory.Keys + layout.data == old(memory.Keys) + layout.data;
      }
      return Some(existing.address);
    }

    /** What the user bit leaves in order, on an entry that leads to a table. */
    lemma MarkUser(top: nat, p: Place, i: nat)
      requires Ready(top) && p in layout.tables && i < 512 && p.level >= 2
      requires memory[layout.tables[p]][i].present && !memory[layout.tables[p]][i].huge
      ensures var memory' := Put(memory, layout.tables[p], i, memory[layout.tables[p]][i].(user := true));
              && Shape(memory', top, layout) && AllReached(memory', top, layout.homes.Keys) &&
                   Open(memory', top, layout.yard)
              && memory'.Keys == memory.Keys && Undisturbed(memory, memory', layout.tables, top)
              && (Apart() && InYard(Covered(p, i)) ==> Secluded(memory', layout.tables))
    {
      hide Shape, AllHeld, AllReached, Open, InYard, Covered, Grows, Secluded, SameHuge, KeepsOutside;
      TablesAreThere(memory, top, layout);
      var memory' := Put(memory, layout.tables[p], i, memory[layout.tables[p]][i].(user := true));
      UserBitKeepsShape(memory, top, layout, p, i);
      ReachedPersists(memory, memory', top, layout, 0, 0, layout.homes.Keys);
      OpenPersists(memory, memory', top, layout, 0, 0, layout.yard);
      GrowthKeepsOutside(memory, memory', top, layout, 0, 0, 0, 0);
      GrowthKeepsHuge(memory, memory', top, layout);
    }

    /** Put a 2 MiB page into a directory that is on its path. */
    method MapHuge(top: nat, pdpt: nat, directory: nat, i: nat, physical: nat, uncached: bool,
                   ghost page: nat, ghost q: Place, ghost p: Place)
      requires Ready(top) && page % 0x20_0000 == 0 && page + 0x20_0000 <= HIGHEST && i == SlotOf(page, 2)
      requires q in layout.tables && q.level == 3 && layout.tables[q] == pdpt
      requires p in layout.tables && p.level == 2 && layout.tables[p] == directory && Covered(p, i) == page
      requires Leads(memory, top, 4, page, pdpt) && Leads(memory, pdpt, 3, page, directory)
      modifies this`memory, this`layout
      ensures Ready(top)
      ensures memory == Put(old(memory), directory, i, Entry(true, true, false, true, uncached, physical))
      ensures layout == WithPage(old(layout), page, physical)
      ensures KeepsOutside(old(memory), memory, top, page, page + 0x20_0000)
      ensures old(Apart()) ==> Apart()
      ensures Uncached(memory, top, page) <==> uncached
    {
      hide Shape, AllHeld, AllReached, Open, InYard, Covered, Grows, Secluded, KeepsOutside, SlotOf, Leads, Reached;
      hide Avoids, Beyond, Uncached;
      TablesAreThere(memory, top, layout);
      ghost var l, before := layout, memory;
      ghost var start, end := page, page + 0x20_0000;
      HugePageKeepsShape(memory, top, layout, p, i, uncached, physical);
      memory := Put(memory, directory, i, Entry(true, true, false, true, uncached, physical));
      layout := WithPage(layout, page, physical);
      GrowthKeepsOutside(before, memory, top, l, start, end, start, end);
      OthersReached(before, memory, top, l, page, l.homes.Keys);
      BeyondAvoids(l.yard, page);
      OpenBeyond(before, top, l.yard, page);
      OpenPersists(before, memory, top, l, start, end, Beyond(l.yard, page));
      LinkStays(before, memory, l.tables, start, end, Place(4, 0), page, pdpt);
      LinkStays(before, memory, l.tables, start, end, q, page, directory);
      PathReaches(memory, top, pdpt, directory, page);
      PageIsLast(memory, top, pdpt, directory, page);
      ReachedOneMore(memory, top, l.homes.Keys, page);
      assert layout.homes.Keys == l.homes.Keys + {page};
      assert memory.Keys == before.Keys;
    }

    /** Identity-map a device's registers, allocating whatever tables the address needs. */
    method MapDevice(physical: u64, length: u64) returns (ok: bool, ghost upTo: nat)
      requires Valid()
      modifies this, frames, frames.bitmap
      ensures Valid() && root == old(root) && mapped == old(mapped) && layout.data == old(layout.data)
      ensures old(layout.homes.Keys) <= layout.homes.Keys
      ensures root == 0 || length == 0 || physical + length >= TWO_64 ==>
                !ok && upTo == WindowOf(physical, length).start
      ensures var w := WindowOf(physical, length);
              && (ok ==> upTo == if w.start <= w.end then w.end else w.start)
              && (ok ==> Spanned(layout.homes.Keys, w.start, w.end))
              && windows == (if ok && |old(windows)| < 8 then old(windows) + [w] else old(windows))
              && layout.homes == HomesAfter(old(layout.homes), w.start, upTo)
              && layout.yard == YardAfter(old(layout.yard), w.start, upTo)
              && (root != 0 ==> KeepsUnaliased(old(memory), memory, root, w.start, upTo))
              && w.start <= upTo && (w.start < upTo ==> upTo <= w.end)
      ensures old(Apart()) ==> Apart()
      ensures YardClear(layout.homes) <==>
                old(YardClear(layout.homes)) && AvoidsYard(WindowOf(physical, length).start, upTo)
      ensures root != 0 && old(Honest()) && WindowOf(physical, length).end <= HIGHEST ==> Honest()
      ensures ok && old(Honest()) && |old(windows)| < MAX_DEVICE_WINDOWS ==>
                (Identity() <==> WindowOf(physical, length).end <= HIGHEST)
      ensures !ok ==> root == 0 || length == 0 || physical + length >= TWO_64 || OutOfFrames()
    {
      hide OutOfFrames;
      hide Ready, Owned, Promised, Spanned, RoundUp, HomesAfter, YardAfter, KeepsUnaliased, Secluded, HugeBase;
      hide Identity, YardClear, AvoidsYard;
      WindowIsWhole(physical, length);
      var start := HugeBase(physical);
      upTo := start;
      NothingMapped(layout.homes, layout.yard, start);
      AliasesNothing(memory, root, start);
      ClearAfter(layout.homes, start, start);
      if root == 0 || length == 0 {
        return false, upTo;
      }
      if physical + length >= TWO_64 {
        return false, upTo;
      }
      var end := RoundUp(physical + length);
      ok, upTo := MapPages(start, end);
      ClearAfter(old(layout.homes), start, upTo);
      if ok {
        Remember(start, end);
      }
      if old(Honest()) {
        LowHomes(old(layout.homes), start, upTo);
        if ok && end <= HIGHEST {
          HonestIsIdentity();
        } else if ok && |old(windows)| < MAX_DEVICE_WINDOWS {
          assert windows[|old(windows)|] == Window(start, end);
          FarWindow(start, end);
        }
      }
    }

    /** The pages of a device, one by one, until one has no tables. */
    method MapPages(start: nat, end: nat) returns (ok: bool, ghost upTo: nat)
      requires root != 0 && Ready(root) && Promised() && start % 0x20_0000 == 0 && end % 0x20_0000 == 0
      modifies this`memory, this`layout, frames, frames.bitmap
      ensures Ready(root) && Promised() && layout.data == old(layout.data)
      ensures old(layout.homes.Keys) <= layout.homes.Keys
      ensures start <= upTo && (start < upTo ==> upTo <= end) && upTo % 0x20_0000 == 0
      ensures ok ==> upTo == (if start <= end then end else start) && Spanned(layout.homes.Keys, start, end)
      ensures layout.homes == HomesAfter(old(layout.homes), start, upTo)
      ensures layout.yard == YardAfter(old(layout.yard), start, upTo)
      ensures KeepsUnaliased(old(memory), memory, root, start, upTo)
      ensures old(Apart()) ==> Apart()
      ensures !ok ==> OutOfFrames()
    {
      hide OutOfFrames;
      hide Uncached, Walk, EndsHuge, HugeBase, PageOf, InYard, Met, Clear, Avoids;
      hide Ready, Promised, Spanned, HomesAfter, YardAfter, KeepsUnaliased, KeepsOutside, Secluded, FrameOf, Beyond;
      hide Apart;
      NothingSpanned(layout.homes.Keys, start, start);
      NothingMapped(layout.homes, layout.yard, start);
      AliasesNothing(memory, root, start);
      upTo := start;
      var page := start;
      while page < end
        invariant Ready(root) && Promised() && layout.data == old(layout.data)
        invariant old(layout.homes.Keys) <= layout.homes.Keys
        invariant page % 0x20_0000 == 0 && start <= page && (start < page ==> page <= end) && upTo == page
        invariant Spanned(layout.homes.Keys, start, page)
        invariant layout.homes == HomesAfter(old(layout.homes), start, page)
        invariant layout.yard == YardAfter(old(layout.yard), start, page)
        invariant KeepsUnaliased(old(memory), memory, root, start, page)
        invariant old(Apart()) ==> Apart()
      {
        ghost var before, was := layout.homes.Keys, memory;
        OneMorePage(old(layout.homes), old(layout.yard), start, page);
        ok := MapDevicePage(page);
        if !ok {
          KeepsNoMore(old(memory), was, memory, root, start, page);
          return;
        }
        KeepsOneMore(old(memory), was, memory, root, start, page);
        SpannedByMore(before, layout.homes.Keys, start, page);
        SpansOneMore(layout.homes.Keys, start, page);
        page := page + 0x20_0000;
        upTo := page;
      }
      if end < start {
        NothingSpanned(layout.homes.Keys, start, end);
      }
      return true, upTo;
    }

    /** Remember a mapped window, if there is room to. */
    method Remember(start: nat, end: nat)
      requires root != 0 && Ready(root) && Promised() && Spanned(layout.homes.Keys, start, end)
      modifies this`windows
      ensures Ready(root) && Promised()
      ensures windows == if |old(windows)| < MAX_DEVICE_WINDOWS then old(windows) + [Window(start, end)]
                else old(windows)
    {
      hide Shape, AllHeld, AllReached, Open, Spanned;
      if |windows| < MAX_DEVICE_WINDOWS {
        windows := windows + [Window(start, end)];
      }
    }

    lemma StillPromised(before: set<nat>)
      requires before <= layout.homes.Keys && Spanned(before, 0, mapped) && |windows| <= MAX_DEVICE_WINDOWS
      requires forall w :: w in windows ==> Spanned(before, w.start, w.end)
      ensures Promised()
    {
      hide Spanned;
      SpannedByMore(before, layout.homes.Keys, 0, mapped);
      forall w | w in windows ensures Spanned(layout.homes.Keys, w.start, w.end) {
        SpannedByMore(before, layout.homes.Keys, w.start, w.end);
      }
    }

    /**
     * One page of a device: entries are picked by 48 address bits, and the last one gets the whole
     * address. So a page from 2^48 up takes the place of the one in its lower bits.
     */
    method MapDevicePage(page: nat) returns (ok: bool)
      requires root != 0 && Ready(root) && Promised() && page % 0x20_0000 == 0
      modifies this`memory, this`layout, frames, frames.bitmap
      ensures Ready(root) && Promised() && layout.data == old(layout.data)
      ensures var low := page % HIGHEST;
              if ok then
                && layout.homes == old(layout.homes)[low := FrameOf(page)]
                && layout.yard == Beyond(old(layout.yard), low)
                && KeepsOutside(old(memory), memory, root, low, low + 0x20_0000) && Uncached(memory, root, low)
              else
                && layout.homes == old(layout.homes) && layout.yard == old(layout.yard)
                && KeepsOutside(old(memory), memory, root, 0, 0)
      ensures old(Apart()) ==> Apart()
      ensures !ok ==> OutOfFrames()
    {
      hide OutOfFrames;
      hide Shape, AllHeld, AllReached, Open, Walk, Spanned, Secluded, SameHuge, KeepsOutside, Beyond, FrameOf, PlaceOf;
      hide Leads, SlotOf, Uncached;
      ghost var low := page % HIGHEST;
      LowPart(page);
      var found := FindDirectory(page, false);
      if found.None? {
        return false;
      }
      label Found:
      YardEntry(low, 2);
      MapHuge(root, found.value.0, found.value.1, SlotOf(page, 2), FrameOf(page), true, low, PlaceOf(low, 3),
        PlaceOf(low, 2));
      WiderKeeps(old(memory), old@Found(memory), root, low, low + 0x20_0000);
      KeepsOutsideTransitive(old(memory), old@Found(memory), memory, root, low, low + 0x20_0000);
      StillPromised(old(layout.homes.Keys));
      return true;
    }

    /** One level down on the way to an address, hanging a table there if there is none. */
    method StepDown(t: nat, level: nat, va: nat, user: bool) returns (r: Option<nat>)
      requires root != 0 && Ready(root) && Promised() && 3 <= level <= 4
      requires PlaceOf(va % HIGHEST, level) in layout.tables && layout.tables[PlaceOf(va % HIGHEST, level)] == t
      modifies this`memory, this`layout, frames, frames.bitmap
      ensures Ready(root) && Promised() && Above(old(layout), layout, level)
      ensures Undisturbed(old(memory), memory, old(layout.tables), root)
      ensures old(Apart()) && (user ==> InYard(va % HIGHEST)) ==> Apart()
      ensures var low := va % HIGHEST;
              r.Some? ==>
                && PlaceOf(low, level - 1) in layout.tables && layout.tables[PlaceOf(low, level - 1)] == r.value
                && Leads(memory, t, level, low, r.value) && (user ==> Passes(memory, t, level, low, r.value))
      ensures var low := va % HIGHEST;
              user && old(EndsHuge(memory, t, level, low)) ==>
                && r.Some? && EndsHuge(memory, r.value, level - 1, low)
                && MarkPath(old(memory), t, level, low) == MarkPath(memory, r.value, level - 1, low)
      ensures r.None? ==> OutOfFrames()
    {
      hide OutOfFrames;
      hide Shape, AllHeld, AllReached, Open, InYard, Covered, SlotOf, EndsHuge, Spanned, Secluded, Undisturbed;
      hide MarkPath;
      ghost var low := va % HIGHEST;
      LowSlots(va);
      TablesAreThere(memory, root, layout);
      YardEntry(low, level);
      ghost var before := memory;
      r := Descend(root, t, SlotOf(va, level), user, PlaceOf(low, level));
      if user && EndsHuge(before, t, level, low) {
        FirstPresent(before, t, level, low);
        MarkStep(before, t, level, low);
        HugeBelow(before, t, level, low);
        UserBitKeepsEnds(before, t, SlotOf(low, level), r.value, level - 1, low);
      }
    }

    /** The directory for an address, and the table above it, created on demand. */
    method FindDirectory(va: nat, user: bool) returns (r: Option<(nat, nat)>)
      requires root != 0 && Ready(root) && Promised()
      modifies this`memory, this`layout, frames, frames.bitmap
      ensures Ready(root) && Promised() && layout == old(layout).(tables := layout.tables)
      ensures KeepsOutside(old(memory), memory, root, 0, 0) && SameHuge(old(memory), memory, root)
      ensures user && old(EndsHuge(memory, root, 4, va % HIGHEST)) ==>
                r.Some? && MarkPath(old(memory), root, 4, va % HIGHEST) == MarkPath(memory, r.value.1, 2, va % HIGHEST)
      ensures old(Apart()) && (user ==> InYard(va % HIGHEST)) ==> Apart()
      ensures r.Some? ==> OnDirectoryPath(memory, layout, root, r.value.0, r.value.1, va % HIGHEST, user)
      ensures r.None? ==> OutOfFrames()
    {
      hide OutOfFrames;
      hide Ready, Promised, Grows, InYard, SlotOf, EndsHuge, Secluded, SameHuge, KeepsOutside, MarkPath, Leads, Passes;
      ghost var low := va % HIGHEST;
      TopIsThere();
      var pdpt := StepDown(root, 4, va, user);
      if pdpt.None? {
        return None;
      }
      label First:
      var directory := StepDown(pdpt.value, 3, va, user);
      KeepsOutsideTransitive(old(memory), old@First(memory), memory, root, 0, 0);
      SameHugeTransitive(old(memory), old@First(memory), memory, root);
      if directory.None? {
        return None;
      }
      LinkStays(old@First(memory), memory, old@First(layout.tables), 0, 0, PlaceOf(low, 4), low, pdpt.value);
      PathTablesDiffer(low);
      return Some((pdpt.value, directory.value));
    }

    lemma TopIsThere()
      requires root != 0 && Ready(root)
      ensures forall va: nat :: PlaceOf(va, 4) in layout.tables && layout.tables[PlaceOf(va, 4)] == root
    {
      hide AllHeld, AllReached, Open;
    }

    lemma PathTablesDiffer(va: nat)
      requires root != 0 && Ready(root) && PlaceOf(va, 3) in layout.tables && PlaceOf(va, 2) in layout.tables
      ensures var directory := layout.tables[PlaceOf(va, 2)];
              directory in memory && directory != root && directory != layout.tables[PlaceOf(va, 3)]
    {
      hide AllHeld, AllReached, Open;
      TablesDiffer(memory, root, layout, PlaceOf(va, 2), PlaceOf(va, 4));
      TablesDiffer(memory, root, layout, PlaceOf(va, 2), PlaceOf(va, 3));
    }

    /** Build the identity map and switch to it. On failure the firmware's map stays live. */
    method Init(regions: seq<Region>, framebufferEnd: nat) returns (gibibytes: nat)
      requires Valid() && root == 0
      modifies this, frames, frames.bitmap
      ensures Valid() && layout.yard == {} && windows == []
      ensures gibibytes == 0 ==> root == 0
      ensures gibibytes > 0 ==> root != 0 && mapped == gibibytes * GIB && Suffices(gibibytes, regions, framebufferEnd)
      ensures gibibytes > 0 ==> Needed(gibibytes, regions, framebufferEnd)
      ensures gibibytes > 0 ==> Secure() && Honest()
      ensures gibibytes > 0 ==> forall va :: 0 <= va < HIGHEST ==> (Walk(memory, root, 4, va).Some? <==> va < mapped)
      ensures gibibytes == 0 ==> OutOfFrames()
    {
      hide OutOfFrames;
      hide Shape, AllHeld, AllReached, Open, Spanned, Suffices, Needed, OnIdentityPath, Secluded, Within, Walk;
      var enough := GibibytesToCover(regions, framebufferEnd);
      AtLeastFour(enough, regions, framebufferEnd);
      var tables := StartMap();
      if tables.None? {
        return 0;
      }
      var (pml4, pdpt) := tables.value;
      NothingSpanned(layout.homes.Keys, 0, 0);
      var gibibyte := 0;
      while gibibyte < enough
        invariant Ready(pml4) && Apart() && gibibyte <= enough && Spanned(layout.homes.Keys, 0, gibibyte * GIB)
        invariant OnIdentityPath(memory, layout, pml4, pdpt, gibibyte) && Within(layout.homes, gibibyte * GIB)
        invariant root == 0 && mapped == 0 && windows == [] && layout.yard == {} && layout.data == {}
      {
        var ok := FillGibibyte(pml4, pdpt, gibibyte);
        if !ok {
          return 0;
        }
        gibibyte := gibibyte + 1;
      }
      root := pml4;
      mapped := enough * GIB;
      HomesOnPath(memory, layout, pml4, pdpt, enough);
      LowIsOutside(layout.homes, mapped);
      NothingBeyond();
      return enough;
    }

    /** The two top tables. */
    method StartMap() returns (r: Option<(nat, nat)>)
      requires Valid() && root == 0
      modifies this`memory, this`layout, frames, frames.bitmap
      ensures Owned() && layout.yard == {} && layout.data == {}
      ensures r.Some? ==>
                && r.value.0 != 0 && Ready(r.value.0) && Apart()
                && OnIdentityPath(memory, layout, r.value.0, r.value.1, 0) && Within(layout.homes, 0)
      ensures r.None? ==> OutOfFrames()
    {
      hide OutOfFrames;
      hide Shape, AllHeld, AllReached, Open, Grows, Spanned, InYard, Covered, Secluded, Undisturbed;
      layout := Layout(map[], {}, {}, map[]);
      var pml4 := AllocateFrame();
      if pml4.None? {
        return None;
      }
      memory := memory[pml4.value := EMPTY];
      assert memory.Keys + {} == old(memory.Keys) + {} + {pml4.value};
      layout := layout.(tables := map[Place(4, 0) := pml4.value]);
      BareTop(memory, pml4.value);
      assert Covered(Place(4, 0), 0) == 0 by { FirstEntry(); }
      var pdpt := Hang(pml4.value, pml4.value, 0, false, Place(4, 0));
      if pdpt.None? {
        return None;
      }
      forall g | 0 <= g < 512 ensures !EMPTY[g].present {
        EmptyHasNothing(g);
      }
      return Some((pml4.value, pdpt.value));
    }

    /** One directory of 512 huge pages. */
    method FillGibibyte(pml4: nat, pdpt: nat, gibibyte: nat) returns (ok: bool)
      requires Ready(pml4) && Apart() && gibibyte < 512
      requires Spanned(layout.homes.Keys, 0, gibibyte * GIB) && Within(layout.homes, gibibyte * GIB)
      requires OnIdentityPath(memory, layout, pml4, pdpt, gibibyte)
      modifies this`memory, this`layout, frames, frames.bitmap
      ensures Ready(pml4) && Apart() && layout.yard == {} && layout.data == {}
      ensures ok ==>
                && Spanned(layout.homes.Keys, 0, (gibibyte + 1) * GIB) && Within(layout.homes, (gibibyte + 1) * GIB)
                && OnIdentityPath(memory, layout, pml4, pdpt, gibibyte + 1)
      ensures !ok ==> OutOfFrames()
    {
      hide OutOfFrames;
      hide Shape, AllHeld, AllReached, Open, Spanned, Secluded, Within;
      var directory := HangDirectory(pml4, pdpt, gibibyte);
      if directory.None? {
        return false;
      }
      var index := 0;
      while index < 512
        invariant index <= 512 && Ready(pml4) && Apart()
        invariant Spanned(layout.homes.Keys, 0, gibibyte * GIB + index * HUGE_PAGE)
        invariant Within(layout.homes, gibibyte * GIB + index * HUGE_PAGE)
        invariant OnIdentityPath(memory, layout, pml4, pdpt, gibibyte + 1)
        invariant DirectoryFor(memory, layout, pdpt, directory.value, gibibyte)
      {
        FillSlot(pml4, pdpt, directory.value, gibibyte, index);
        index := index + 1;
      }
      return true;
    }

    method HangDirectory(pml4: nat, pdpt: nat, gibibyte: nat) returns (r: Option<nat>)
      requires Ready(pml4) && Apart() && gibibyte < 512 && OnIdentityPath(memory, layout, pml4, pdpt, gibibyte)
      modifies this`memory, this`layout, frames, frames.bitmap
      ensures Ready(pml4) && Apart() && layout == old(layout).(tables := layout.tables)
      ensures r.Some? ==>
                && OnIdentityPath(memory, layout, pml4, pdpt, gibibyte + 1)
                && DirectoryFor(memory, layout, pdpt, r.value, gibibyte)
      ensures r.None? ==> OutOfFrames()
    {
      hide OutOfFrames;
      hide Shape, AllHeld, AllReached, Open, Grows, InYard, Covered, Secluded, Undisturbed;
      IdentitySlots(gibibyte, 0);
      TablesAreThere(memory, pml4, layout);
      r := Hang(pml4, pdpt, gibibyte, false, Place(3, 0));
    }

    method FillSlot(pml4: nat, pdpt: nat, directory: nat, gibibyte: nat, index: nat)
      requires Ready(pml4) && Apart() && gibibyte < 512 && index < 512
      requires Spanned(layout.homes.Keys, 0, gibibyte * GIB + index * HUGE_PAGE)
      requires Within(layout.homes, gibibyte * GIB + index * HUGE_PAGE)
      requires OnIdentityPath(memory, layout, pml4, pdpt, gibibyte + 1)
      requires DirectoryFor(memory, layout, pdpt, directory, gibibyte)
      modifies this`memory, this`layout
      ensures Ready(pml4) && Apart() && Spanned(layout.homes.Keys, 0, gibibyte * GIB + (index + 1) * HUGE_PAGE)
      ensures Within(layout.homes, gibibyte * GIB + (index + 1) * HUGE_PAGE)
      ensures OnIdentityPath(memory, layout, pml4, pdpt, gibibyte + 1)
      ensures DirectoryFor(memory, layout, pdpt, directory, gibibyte)
      ensures var physical := gibibyte * GIB + index * HUGE_PAGE;
              Uncached(memory, pml4, physical) <==> physical >= 0xf000_0000
    {
      hide Shape, AllHeld, AllReached, Open, Grows, Spanned, InYard, Covered, SlotOf, Secluded, KeepsOutside, Within;
      hide Uncached;
      IdentitySlots(gibibyte, index);
      TablesAreThere(memory, pml4, layout);
      TablesDiffer(memory, pml4, layout, Place(2, gibibyte * GIB), Place(3, 0));
      TablesDiffer(memory, pml4, layout, Place(2, gibibyte * GIB), Place(4, 0));
      var physical := gibibyte * GIB + index * HUGE_PAGE;
      WithinMore(layout.homes, physical, physical);
      MapHuge(pml4, pdpt, directory, index, physical, physical >= DEVICE_WINDOW, physical, Place(3, 0),
        Place(2, gibibyte * GIB));
      SpannedByMore(old(layout.homes.Keys), layout.homes.Keys, 0, physical);
      SpansOneMore(layout.homes.Keys, 0, physical);
    }

    /** Map one 4 KiB frame into the yard, user-accessible, and nothing else. */
    method MapYardPage(va: u64, writable: bool) returns (r: Option<nat>)
      requires Valid()
      modifies this`memory, this`layout, frames, frames.bitmap
      ensures root == old(root)
      ensures root == 0 ==> r == None && Valid()
      ensures var low := va % HIGHEST;
              root != 0 && !old(EndsHuge(memory, root, 4, low)) ==>
                && Valid() && KeepsOutside(old(memory), memory, root, PageOf(low), PageOf(low) + 0x1000)
                && layout.homes == old(layout.homes)
                && (r.None? ==> layout.yard == old(layout.yard) && layout.data == old(layout.data))
                && (r.Some? ==>
                      && layout.yard == old(layout.yard) + {PageOf(low)} && layout.data == old(layout.data) + {r.value}
                      && r.value !in old(layout.data)
                      && Walk(memory, root, 4, low) == Some(Translation(r.value + low % 0x1000, true, writable)))
                && (old(Apart()) && InYard(low) ==> Apart())
      ensures InYard(va % HIGHEST) && old(Secure()) ==> Secure() && !old(EndsHuge(memory, root, 4, va % HIGHEST))
      ensures var low := va % HIGHEST;
              root != 0 && old(EndsHuge(memory, root, 4, low)) ==>
                var (marked, behind) := (MarkPath(old(memory), root, 4, low), FrameBehind(old(memory), root, low));
                && Exposed(old(memory), marked, root, low)
                && memory == (if r.Some? && behind in marked then
                                Put(marked, behind, SlotOf(low, 1), Entry(true, writable, true, false, false, r.value))
                              else marked)
                && (r.None? || behind !in marked || !Looks(marked, root, 4, low, behind, SlotOf(low, 1)) ==>
                      Exposed(old(memory), memory, root, low))
      ensures r.None? ==> root == 0 || OutOfFrames()
    {
      hide OutOfFrames;
      hide Ready, Promised, Owned, InYard, SlotOf, Walk, EndsHuge, KeepsOutside, PageOf, HugeBase, OnYardPath, Secluded;
      hide Exposed, FrameBehind, MarkPath, Looks;
      if root == 0 {
        return None;
      }
      ghost var low := va % HIGHEST;
      ghost var over := EndsHuge(memory, root, 4, low);
      HugeIff(low);
      BaseStaysInYard(low);
      NothingLost(memory, root, PageOf(low), PageOf(low) + 0x1000);
      var path := FindYardTable(va);
      label Pathed:
      if !over {
        WiderKeeps(old(memory), memory, root, PageOf(low), PageOf(low) + 0x1000);
      }
      if path.None? {
        return None;
      }
      r := FrameForPage();
      if r.None? {
        return None;
      }
      SetYardPage(path.value, r.value, va, writable, over);
      if over && path.value.table in old@Pathed(memory) {
        StaysExposed(old(memory), old@Pathed(memory), root, low, path.value.table, SlotOf(low, 1),
          Entry(true, writable, true, false, false, r.value));
      }
      if !over {
        KeepsOutsideTransitive(old(memory), old@Pathed(memory), memory, root, PageOf(low), PageOf(low) + 0x1000);
      }
    }

    /** A frame for user code; whatever was in order stays so. */
    method FrameForPage() returns (r: Option<nat>)
      requires Owned()
      modifies frames, frames.bitmap
      ensures Owned() && (root != 0 && old(Ready(root)) ==> Ready(root))
      ensures r.Some? ==> r.value !in memory && r.value !in layout.data && r.value % 4096 == 0
      ensures r.Some? ==> AllHeld(frames.base, frames.State(), memory.Keys + layout.data + {r.value})
      ensures r.None? ==> OutOfFrames()
    {
      hide OutOfFrames;
      hide Shape, AllHeld, AllReached, Open;
      r := AllocateFrame();
    }

    /** The last entry of the path. A device's own registers are not part of this memory. */
    method SetYardPage(path: Path, frame: nat, va: nat, writable: bool, ghost over: bool)
      requires root != 0 && Owned() && AllHeld(frames.base, frames.State(), memory.Keys + layout.data + {frame})
      requires frame !in memory && frame !in layout.data && frame % 4096 == 0
      requires over || (Ready(root) && Promised() && !EndsHuge(memory, root, 4, va % HIGHEST))
      requires over || OnYardPath(memory, layout, root, path, va % HIGHEST)
      modifies this`memory, this`layout
      ensures var low := va % HIGHEST;
              !over ==>
                && Ready(root) && Promised()
                && KeepsOutside(old(memory), memory, root, PageOf(low), PageOf(low) + 0x1000)
                && layout == old(layout).(yard := old(layout.yard) + {PageOf(low)}, data := old(layout.data) + {frame})
                && Walk(memory, root, 4, low) == Some(Translation(frame + low % 0x1000, true, writable))
                && (old(Apart()) && InYard(low) ==> Apart())
      ensures var e := Entry(true, writable, true, false, false, frame);
              over ==>
                memory == (if path.table in old(memory) then Put(old(memory), path.table, SlotOf(va % HIGHEST, 1), e)
                           else old(memory))
    {
      hide Shape, AllHeld, AllReached, Open, InYard, SlotOf, Walk, EndsHuge, KeepsOutside, PageOf, Secluded, Spanned;
      hide Passes;
      ghost var low := va % HIGHEST;
      LowSlots(va);
      if !over {
        SetLeaf(path, frame, low, writable);
      }
      if path.table in memory {
        memory := Put(memory, path.table, SlotOf(va, 1), Entry(true, writable, true, false, false, frame));
      }
      layout := layout.(yard := layout.yard + {PageOf(low)}, data := layout.data + {frame});
      assert memory.Keys + layout.data == old(memory.Keys) + old(layout.data) + {frame};
    }

    /** The tables on the way to a page of user code, created on demand and marked as its. */
    method FindYardTable(va: nat) returns (r: Option<Path>)
      requires root != 0 && Ready(root) && Promised()
      modifies this`memory, this`layout, frames, frames.bitmap
      ensures Owned()
      ensures var low := va % HIGHEST;
              !old(EndsHuge(memory, root, 4, low)) ==>
                && Ready(root) && Promised() && KeepsOutside(old(memory), memory, root, 0, 0)
                && !EndsHuge(memory, root, 4, low)
                && layout == old(layout).(tables := layout.tables)
                && (old(Apart()) && InYard(low) ==> Apart())
                && (r.Some? ==> OnYardPath(memory, layout, root, r.value, low))
      ensures var low := va % HIGHEST;
              old(EndsHuge(memory, root, 4, low)) ==>
                && r.Some? && r.value.table == FrameBehind(old(memory), root, low)
                && memory == MarkPath(old(memory), root, 4, low) && Exposed(old(memory), memory, root, low)
      ensures r.None? ==> OutOfFrames()
    {
      hide OutOfFrames;
      hide FrameBehind, Exposed, Shape, AllHeld, AllReached, Open, Grows, InYard, Covered, SlotOf, Walk, EndsHuge;
      hide Spanned, Secluded, SameHuge, KeepsOutside, HugeBase, MarkPath;
      ghost var low := va % HIGHEST;
      var found := FindDirectory(va, true);
      SameHugeAt(old(memory), memory, root, low);
      if found.None? {
        return None;
      }
      label Found:
      var (pdpt, directory) := found.value;
      if old(EndsHuge(memory, root, 4, low)) {
        KeepsHuge(old(memory), memory, root, low);
      }
      var table := LastTable(va, pdpt, directory);
      if !old(EndsHuge(memory, root, 4, low)) {
        KeepsOutsideTransitive(old(memory), old@Found(memory), memory, root, 0, 0);
      }
      if table.None? {
        return None;
      }
      return Some(Path(pdpt, directory, table.value));
    }

    /** The last step of the same kind, which may meet a 2 MiB page instead of a table. */
    method LastTable(va: nat, pdpt: nat, directory: nat) returns (r: Option<nat>)
      requires root != 0 && Ready(root) && Promised()
      requires OnDirectoryPath(memory, layout, root, pdpt, directory, va % HIGHEST, true)
      modifies this`memory, this`layout, frames, frames.bitmap
      ensures Owned()
      ensures var low := va % HIGHEST;
              !old(EndsHuge(memory, root, 4, low)) ==>
                && Ready(root) && Promised() && KeepsOutside(old(memory), memory, root, 0, 0)
                && !EndsHuge(memory, root, 4, low)
                && layout == old(layout).(tables := layout.tables)
                && (old(Apart()) && InYard(low) ==> Apart())
                && (r.Some? ==> OnYardPath(memory, layout, root, Path(pdpt, directory, r.value), low))
      ensures var low := va % HIGHEST;
              old(EndsHuge(memory, root, 4, low)) ==>
                && r == Some(FrameBehind(old(memory), root, low))
                && memory == MarkPath(old(memory), directory, 2, low) && Exposed(old(memory), memory, root, low)
      ensures r.None? ==> OutOfFrames()
    {
      hide OutOfFrames;
      hide Shape, AllHeld, AllReached, Open, Grows, InYard, Covered, SlotOf, Walk, EndsHuge, Spanned, Secluded;
      hide SameHuge, KeepsOutside, HugeBase, MarkPath;
      ghost var low := va % HIGHEST;
      LowSlots(va);
      YardEntry(low, 2);
      TablesAreThere(memory, root, layout);
      WalkAtDirectory(memory, root, pdpt, directory, low);
      HugeIsKernels(memory, root, layout, PlaceOf(low, 2), low);
      if EndsHuge(memory, root, 4, low) {
        MarkStep(memory, directory, 2, low);
      }
      r := Descend(root, directory, SlotOf(va, 2), true, PlaceOf(low, 2));
      if old(EndsHuge(memory, root, 4, low)) {
        WalkAtDirectory(memory, root, pdpt, directory, low);
        assert memory.Keys + layout.data == old(memory.Keys) + layout.data;
      } else {
        SameHugeAt(old(memory), memory, root, low);
        if r.Some? {
          TablesAreThere(memory, root, layout);
          LinkStays(old(memory), memory, old(layout.tables), 0, 0, PlaceOf(low, 4), low, pdpt);
          LinkStays(old(memory), memory, old(layout.tables), 0, 0, PlaceOf(low, 3), low, directory);
          PlaceOfCovers(low, 1);
          TablesDiffer(memory, root, layout, PlaceOf(low, 1), PlaceOf(low, 4));
          TablesDiffer(memory, root, layout, PlaceOf(low, 1), PlaceOf(low, 3));
          TablesDiffer(memory, root, layout, PlaceOf(low, 1), PlaceOf(low, 2));
        }
      }
    }

    /** What the last entry of the path leaves in order, once all the tables above it are there. */
    lemma SetLeaf(path: Path, frame: nat, va: nat, writable: bool)
      requires root != 0 && Ready(root) && va < HIGHEST && !EndsHuge(memory, root, 4, va)
      requires frame !in memory && frame !in layout.data && frame % 4096 == 0
      requires OnYardPath(memory, layout, root, path, va)
      ensures var memory' := Put(memory, path.table, SlotOf(va, 1), Entry(true, writable, true, false, false, frame));
              var l := layout.(yard := layout.yard + {PageOf(va)}, data := layout.data + {frame});
              && Shape(memory', root, l) && AllReached(memory', root, layout.homes.Keys) && Open(memory', root, l.yard)
              && memory'.Keys == memory.Keys
              && KeepsOutside(memory, memory', root, PageOf(va), PageOf(va) + 0x1000)
              && Walk(memory', root, 4, va) == Some(Translation(frame + va % 0x1000, true, writable))
              && (Apart() && InYard(va) ==> Secluded(memory', l.tables))
    {
      hide Shape, AllHeld, AllReached, Open, Grows, InYard, Covered, SlotOf, Walk, EndsHuge, Secluded, KeepsOutside;
      hide PageOf, HugeBase, Clear, Avoids;
      TablesAreThere(memory, root, layout);
      var p := PlaceOf(va, 1);
      var e := Entry(true, writable, true, false, false, frame);
      var memory' := Put(memory, path.table, SlotOf(va, 1), e);
      var start, end := PageOf(va), PageOf(va) + 0x1000;
      PlaceOfCovers(va, 1);
      LeafPage(p, SlotOf(va, 1), va);
      PickedEntryCovers(p, va);
      LeafKeepsShape(memory, root, layout, p, SlotOf(va, 1), frame, writable);
      ReachedAvoidsLeaf(memory, root, layout.homes.Keys, va);
      ReachedPersists(memory, memory', root, layout, start, end, layout.homes.Keys);
      GrowthKeepsOutside(memory, memory', root, layout, start, end, start, end);
      OthersAvoid(layout.yard, va);
      FewerOpen(memory, root, layout.yard, layout.yard - {start});
      OpenPersists(memory, memory', root, layout, start, end, layout.yard - {start});
      UserPath(memory', root, path.pdpt, path.directory, path.table, va);
      OpensPage(memory', root, path, layout.yard, va);
    }

    /** An address translates through a 2 MiB page exactly if there is one for it. */
    lemma HugeIff(va: nat)
      requires root != 0 && Ready(root) && va < HIGHEST
      ensures EndsHuge(memory, root, 4, va) <==> HugeBase(va) in layout.homes
    {
      hide AllHeld, AllReached, Open, Walk, EndsHuge, InYard, PageOf, HugeBase, Secluded;
      TopCovers(memory, root, layout, va);
      TranslationsAreConfined(memory, root, layout, Place(4, 0), va);
      if EndsHuge(memory, root, 4, va) {
        HugeTranslates(memory, root, 4, va);
      }
      if HugeBase(va) in layout.homes {
        ReachedTranslates(memory, root, layout.homes.Keys, va);
      }
    }

    /** Right after bring-up exactly the covered addresses translate. */
    lemma NothingBeyond()
      requires Valid() && root != 0 && layout.yard == {} && Within(layout.homes, mapped) && mapped <= HIGHEST
      ensures forall va :: 0 <= va < HIGHEST ==> (Walk(memory, root, 4, va).Some? <==> va < mapped)
    {
      hide AllHeld, AllReached, Open, Spanned, Walk, EndsHuge, InYard, PageOf, HugeBase, Secluded, Within, Shape;
      forall va | 0 <= va < HIGHEST ensures Walk(memory, root, 4, va).Some? <==> va < mapped {
        TopCovers(memory, root, layout, va);
        TranslationsAreConfined(memory, root, layout, Place(4, 0), va);
        if va < mapped {
          PageIsReached(layout.homes.Keys, 0, mapped, va);
          BaseOfLow(va);
          ReachedTranslates(memory, root, layout.homes.Keys, va);
        } else if Walk(memory, root, 4, va).Some? {
          BaseAndRest(va);
          WithinAt(layout.homes, mapped, HugeBase(va));
        }
      }
    }

    /** Where user code gets at all, it is in one of these pages, in the yard, and at no page table. */
    ghost predicate Isolated(given: set<nat>)
      reads this
    {
      forall va :: 0 <= va < HIGHEST ==> ConfinedAt(va, given)
    }

    predicate ConfinedAt(va: nat, given: set<nat>)
      reads this
    {
      var w := Walk(memory, root, 4, va);
      w.Some? && w.value.user ==> InYard(va) && PageOf(va) in given && PageOf(w.value.physical) !in memory
    }

    /** Any calls that keep the yard for user code and devices out of it. */
    method MapAll(calls: seq<Mapping>)
      requires Secure() && forall call :: call in calls ==> Proper(call)
      modifies this, frames, frames.bitmap
      ensures Secure() && root == old(root) && mapped == old(mapped)
      ensures layout.yard <= old(layout.yard) + Given(calls)
      ensures old(Honest()) && (forall call :: call in calls ==> Near(call)) ==> Honest()
    {
      hide Valid, Apart, YardClear, AvoidsYard, InYard, Honest, PageOf, RoundUp, HugeBase;
      for n := 0 to |calls|
        invariant Secure() && root == old(root) && mapped == old(mapped)
        invariant layout.yard <= old(layout.yard) + Given(calls)
        invariant old(Honest()) && (forall call :: call in calls ==> Near(call)) ==> Honest()
      {
        assert calls[n] in calls && Proper(calls[n]);
        assert (forall call :: call in calls ==> Near(call)) ==> Near(calls[n]);
        match calls[n]
        case YardPage(va, writable) =>
          MapProperPage(va, writable);
        case Device(physical, length) =>
          MapProperDevice(physical, length);
      }
    }

    method MapProperPage(va: u64, writable: bool)
      requires Secure() && InYard(va)
      modifies this`memory, this`layout, frames, frames.bitmap
      ensures Secure() && layout.yard <= old(layout.yard) + {PageOf(va)} && (old(Honest()) ==> Honest())
    {
      hide OutOfFrames;
      hide Ready, Promised, YardClear, EndsHuge, Walk, PageOf, KeepsOutside, Looks, MarkPath, Exposed, FrameBehind;
      var _ := MapYardPage(va, writable);
    }

    method MapProperDevice(physical: u64, length: u64)
      requires Secure() && AvoidsYard(WindowOf(physical, length).start, WindowOf(physical, length).end)
      modifies this, frames, frames.bitmap
      ensures Secure() && root == old(root) && mapped == old(mapped) && layout.yard <= old(layout.yard)
      ensures old(Honest()) && WindowOf(physical, length).end <= HIGHEST ==> Honest()
    {
      hide OutOfFrames, Uncached;
      hide Valid, YardClear, AvoidsYard, HomesAfter, YardAfter, KeepsUnaliased, Identity, Spanned, Honest, WindowOf;
      ghost var w, yard := WindowOf(physical, length), layout.yard;
      var ok, upTo := MapDevice(physical, length);
      AvoidsFewer(w.start, upTo, w.end);
      YardAfterIsLess(yard, w.start, upTo);
    }

    /**
     * Isolation of every run: bring up the map, then call as above in any order and number. User code
     * reaches only pages that were asked for, all in the yard, and never a page table; and if all
     * devices end by 2^48, every address the register accessors accept means itself.
     */
    method Run(regions: seq<Region>, framebufferEnd: nat, calls: seq<Mapping>) returns (gibibytes: nat)
      requires Valid() && root == 0 && forall call :: call in calls ==> Proper(call)
      modifies this, frames, frames.bitmap
      ensures gibibytes > 0 ==> Secure() && mapped == gibibytes * GIB && Isolated(Given(calls))
      ensures gibibytes > 0 && (forall call :: call in calls ==> Near(call)) ==> Identity()
      ensures gibibytes == 0 ==> OutOfFrames()
    {
      hide OutOfFrames;
      hide Valid, Apart, YardClear, Proper, Near, Honest, Identity, Suffices, Walk, Isolated, Given;
      gibibytes := Init(regions, framebufferEnd);
      if gibibytes > 0 {
        MapAll(calls);
        SecureIsIsolated(Given(calls));
        if forall call :: call in calls ==> Near(call) {
          HonestIsIdentity();
        }
      }
    }

    lemma SecureIsIsolated(given: set<nat>)
      requires Secure() && layout.yard <= given
      ensures Isolated(given)
    {
      hide Valid, Apart, YardClear, InYard, PageOf, Walk;
      forall va | 0 <= va < HIGHEST ensures ConfinedAt(va, given) {
        if Walk(memory, root, 4, va).Some? && Walk(memory, root, 4, va).value.user {
          UserReachesOnlyTheYard(va);
        }
      }
    }

    /**
     * Why devices must stay out of the yard: registers at its base, and then a page asked for at the
     * same address, which gives user code the registers, whether or not there was a frame for it.
     */
    method DeviceInTheYard(writable: bool) returns (ok: bool, r: Option<nat>)
      requires Valid() && frames.base + frames.frames * 4096 <= YARD_BASE
      modifies this, frames, frames.bitmap
      ensures ok ==> Walk(memory, root, 4, YARD_BASE) == Some(Translation(YARD_BASE, true, true))
    {
      hide Ready, Promised, Owned, Walk, EndsHuge, KeepsOutside, KeepsUnaliased, Looks, MarkPath, HomesAfter, YardAfter;
      hide AvoidsYard, YardClear, Identity, Honest, Spanned, Apart;
      ghost var upTo;
      r := None;
      ok, upTo := MapDevice(YARD_BASE, 0x1000);
      if ok {
        RegistersAreThere(old(layout.homes));
        YardBaseWindow();
        r := MapYardPage(YARD_BASE, writable);
      }
    }

    lemma RegistersAreThere(before: map<nat, nat>)
      requires Valid() && root != 0 && frames.base + frames.frames * 4096 <= YARD_BASE
      requires var w := WindowOf(YARD_BASE, 0x1000); layout.homes == HomesAfter(before, w.start, w.end)
      ensures EndsHuge(memory, root, 4, YARD_BASE) && FrameBehind(memory, root, YARD_BASE) == YARD_BASE
      ensures Walk(memory, root, 4, YARD_BASE) == Some(Translation(YARD_BASE, false, true))
      ensures YARD_BASE !in memory
    {
      hide Owned, AllReached, Open, Promised, HomesAfter, Walk, EndsHuge, HugeBase, PageOf, Secluded, InYard, WindowOf;
      NoTableThere(YARD_BASE);
      YardBaseWindow();
      HomesAfterAt(before, YARD_BASE, YARD_BASE + 0x20_0000, YARD_BASE);
      HugeIff(YARD_BASE);
      HugeTranslates(memory, root, 4, YARD_BASE);
      TopCovers(memory, root, layout, YARD_BASE);
      TranslationsAreConfined(memory, root, layout, Place(4, 0), YARD_BASE);
    }

    /** Tables lie in the memory that the allocator manages. */
    lemma NoTableThere(address: nat)
      requires Owned() && frames.base + frames.frames * 4096 <= address
      ensures address !in memory
    {
      if address in memory {
        HeldAt(frames.base, frames.State(), memory.Keys + layout.data, address);
        assert false;
      }
    }

    predicate InDeviceWindow(address: nat, length: nat)
      reads this
    {
      address + length < TWO_64 && exists w :: w in windows && address >= w.start && address + length <= w.end
    }

    /** What the register accessors accept. */
    predicate InRange(address: nat, length: nat)
      reads this
    {
      address + length < TWO_64 && (address + length <= mapped || InDeviceWindow(address, length))
    }

    predicate HoldsRange(i: int, address: nat, length: nat)
      reads this
    {
      0 <= i < |windows| && windows[i].start <= address && address + length <= windows[i].end
    }

    /** A range is accepted exactly if it ends below 2^64 and lies in the identity map or in one window. */
    lemma AcceptedIff(address: nat, length: nat)
      ensures InRange(address, length) <==>
                && address + length < 0x1_0000_0000_0000_0000
                && (address + length <= mapped
                    || exists i :: HoldsRange(i, address, length))
    {
      if InDeviceWindow(address, length) {
        var w :| w in windows && address >= w.start && address + length <= w.end;
        var i :| 0 <= i < |windows| && windows[i] == w;
        assert HoldsRange(i, address, length);
      }
    }

    /** The registers of a device that was mapped and remembered are accepted, whole and in part. */
    lemma MappedDeviceIsAccepted(physical: u64, length: u64, address: nat, count: nat)
      requires WindowOf(physical, length) in windows && length > 0 && WindowOf(physical, length).end > 0
      requires physical <= address && address + count <= physical + length < TWO_64
      ensures InRange(address, count)
    {
      hide WindowOf;
      WindowIsWhole(physical, length);
    }

    /** Every 2 MiB page leads to itself, and every window is of addresses that translate as a whole. */
    ghost predicate Honest()
      reads this
    {
      && (forall page :: page in layout.homes ==> layout.homes[page] == page)
      && mapped <= HIGHEST
      && forall w :: w in windows ==> w.end <= HIGHEST
    }

    /**
     * Isolation: user code reaches an address only in a page that was mapped for it, and never
     * lands in a frame that holds a page table. Given yard addresses only, it reaches only those.
     */
    lemma UserReachesOnlyTheYard(va: nat)
      requires Valid() && root != 0 && va < HIGHEST
      requires Walk(memory, root, 4, va).Some? && Walk(memory, root, 4, va).value.user
      ensures PageOf(va) in layout.yard
      ensures PageOf(Walk(memory, root, 4, va).value.physical) in layout.data
      ensures PageOf(Walk(memory, root, 4, va).value.physical) !in memory
      ensures Apart() ==> InYard(va)
    {
      hide AllHeld, AllReached, Open, Spanned, Walk, EndsHuge, InYard, PageOf, HugeBase, Secluded;
      TopCovers(memory, root, layout, va);
      TranslationsAreConfined(memory, root, layout, Place(4, 0), va);
    }

    /**
     * Every byte the register accessors accept translates, by its lower 48 bits, into the home of
     * its page, and is the kernel's alone. So it is the byte itself exactly when the page leads to
     * itself.
     */
    lemma AcceptedRangesTranslate(address: nat, length: nat, va: nat)
      requires Valid() && root != 0 && InRange(address, length) && address <= va < address + length
      ensures var low := va % HIGHEST;
              var w := Walk(memory, root, 4, low);
              && w.Some? && !w.value.user
              && HugeBase(low) in layout.homes && w.value.physical == layout.homes[HugeBase(low)] + va % 0x20_0000
              && (w.value.physical == va <==> layout.homes[HugeBase(low)] == HugeBase(va))
    {
      hide AllHeld, Walk, EndsHuge, InYard, Shape, AllReached, Open, Spanned, HugeBase;
      var low := va % HIGHEST;
      if address + length <= mapped {
        PageIsReached(layout.homes.Keys, 0, mapped, va);
      } else {
        var w :| w in windows && address >= w.start && address + length <= w.end;
        PageIsReached(layout.homes.Keys, w.start, w.end, va);
      }
      BaseOfLow(va);
      BaseAndRest(va);
      ReachedTranslates(memory, root, layout.homes.Keys, low);
      TopCovers(memory, root, layout, low);
      TranslationsAreConfined(memory, root, layout, Place(4, 0), low);
    }

    /**
     * Every address that is accepted means itself. One from 2^48 up never does: it is not a
     * canonical address, or it has more bits than a frame's address.
     */
    ghost predicate Identity()
      reads this
    {
      forall va: nat :: InRange(va, 1) ==>
        va < HIGHEST && Walk(memory, root, 4, va).Some? && Walk(memory, root, 4, va).value.physical == va
    }

    lemma HonestIsIdentity()
      requires Valid() && root != 0 && Honest()
      ensures Identity()
    {
      hide Ready, Promised, Honest, Walk;
      forall va: nat | InRange(va, 1)
        ensures va < HIGHEST && Walk(memory, root, 4, va).Some? && Walk(memory, root, 4, va).value.physical == va
      {
        AcceptedRangesAreIdentity(va, 1, va);
      }
    }

    lemma FarWindow(start: nat, end: nat)
      requires Window(start, end) in windows && start < end && HIGHEST < end < TWO_64
      ensures !Identity()
    {
      hide Walk;
      assert InRange(end - 1, 1);
    }

    /**
     * What exactly is lost when a page from 2^48 up has been mapped, among whatever others: the
     * page in its lower 48 bits, if that was accepted, still is, and leads to the device.
     */
    lemma FarPageTakesPlace(before: map<nat, nat>, start: nat, end: nat, page: nat)
      requires Valid() && root != 0 && layout.homes == HomesAfter(before, start, end)
      requires start % 0x20_0000 == 0 && page % 0x20_0000 == 0 && start <= page
      requires page + 0x20_0000 <= end <= page + HIGHEST
      requires end % 0x20_0000 == 0 && InRange(page % HIGHEST, 1)
      ensures var w := Walk(memory, root, 4, page % HIGHEST);
              && w.Some? && w.value.physical == FrameOf(page)
              && (HIGHEST <= page < 0x10_0000_0000_0000 ==> w.value.physical == page != page % HIGHEST && !Identity())
    {
      hide Ready, Promised, HomesAfter, Walk, HugeBase;
      LowPart(page);
      HomesAfterAt(before, start, end, page);
      AcceptedRangesTranslate(page % HIGHEST, 1, page % HIGHEST);
    }

    /** Registers at 2^48 take the place of address 0, which is accepted and leads to them. */
    lemma AddressZeroIsLost(before: map<nat, nat>)
      requires Valid() && root != 0 && mapped > 0
      requires var w := WindowOf(HIGHEST, 0x1000); layout.homes == HomesAfter(before, w.start, w.end)
      ensures InRange(0, 1) && Walk(memory, root, 4, 0).Some? && Walk(memory, root, 4, 0).value.physical == HIGHEST
    {
      hide Ready, Promised, HomesAfter, Walk;
      assert WindowOf(HIGHEST, 0x1000) == Window(HIGHEST, HIGHEST + 0x20_0000);
      FarPageTakesPlace(before, HIGHEST, HIGHEST + 0x20_0000, HIGHEST);
    }

    /** As long as every page is honest, what is accepted is mapped to itself. */
    lemma AcceptedRangesAreIdentity(address: nat, length: nat, va: nat)
      requires Valid() && root != 0 && Honest() && InRange(address, length) && address <= va < address + length
      ensures va < HIGHEST && Walk(memory, root, 4, va).Some?
      ensures Walk(memory, root, 4, va).value.physical == va && !Walk(memory, root, 4, va).value.user
    {
      hide AllHeld, Walk, Shape, AllReached, Open, Spanned;
      AcceptedRangesTranslate(address, length, va);
    }
  }
}
