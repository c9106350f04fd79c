/**
 * Four-level page tables as values: the walk the processor does, the shape the kernel keeps them
 * in, and what that shape says about every translation.
 */
module PageTables {
  import opened Basics

  /** An entry, by the bits the kernel sets; `uncached` stands for cache-disable and write-through. */
  datatype Entry = Entry(present: bool, writable: bool, user: bool, huge: bool, uncached: bool, address: nat)

  const ABSENT: Entry := Entry(false, false, false, false, false, 0)

  type Table = t: seq<Entry> | |t| == 512 witness Repeat(512, ABSENT)

  type Memory = map<nat, Table>

  /** The bytes that one entry of a table at this level covers. */
  function Span(level: nat): (s: nat)
    requires 1 <= level <= 4
    ensures s > 0
  {
    match level case 4 => 0x80_0000_0000 case 3 => 0x4000_0000 case 2 => 0x20_0000 case _ => 0x1000
  }

  function SlotOf(va: nat, level: nat): (i: nat)
    requires 1 <= level <= 4
    ensures i < 512
  {
    match level
    case 4 => va / 0x80_0000_0000 % 512
    case 3 => va / 0x4000_0000 % 512
    case 2 => va / 0x20_0000 % 512
    case _ => va / 0x1000 % 512
  }

  const HIGHEST: nat := 0x1_0000_0000_0000

  /** The top-level slot that the yard has to itself. */
  predicate InYard(va: nat) {
    va / 0x80_0000_0000 == 32
  }

  datatype Translation = Translation(physical: nat, user: bool, writable: bool)

  /** The walk: permissions are those granted at every level. */
  function Walk(memory: Memory, table: nat, level: nat, va: nat): Option<Translation>
    requires level <= 4
    decreases level
  {
    if level == 0 || table !in memory then None
    else
      var e := memory[table][SlotOf(va, level)];
      if !e.present then None
      else if level == 1 || e.huge then Some(Translation(e.address + va % Span(level), e.user, e.writable))
      else
        var below :- Walk(memory, e.address, level - 1, va);
        Some(below.(user := below.user && e.user, writable := below.writable && e.writable))
  }

  /** The walk ends in a 2 MiB page. */
  predicate EndsHuge(memory: Memory, table: nat, level: nat, va: nat)
    requires level <= 4
    decreases level
  {
    && level > 1 && table in memory
    && var e := memory[table][SlotOf(va, level)];
       e.present && (e.huge || EndsHuge(memory, e.address, level - 1, va))
  }

  /** The entries that a walk meets, from this table down to where it ends or breaks off. */
  function Met(memory: Memory, table: nat, level: nat, va: nat): (path: seq<Entry>)
    requires level <= 4
    ensures |path| <= level
    decreases level
  {
    if level == 0 || table !in memory then []
    else
      var e := memory[table][SlotOf(va, level)];
      if !e.present || e.huge then [e] else [e] + Met(memory, e.address, level - 1, va)
  }

  /**
   * An address translates exactly if every entry on the way is present and the last one is a leaf;
   * it is user code's, or writable, exactly if every entry says so, and the last one has its bytes.
   */
  lemma {:induction false} WalkReadsPath(memory: Memory, table: nat, level: nat, va: nat)
    requires 1 <= level <= 4
    ensures var (w, path) := (Walk(memory, table, level, va), Met(memory, table, level, va));
            && (w.Some? <==> path != [] && (forall e :: e in path ==> e.present)
                             && (path[|path| - 1].huge || |path| == level))
            && (w.Some? ==>
                  && (w.value.user <==> forall e :: e in path ==> e.user)
                  && (w.value.writable <==> forall e :: e in path ==> e.writable)
                  && w.value.physical == path[|path| - 1].address + va % Span(level + 1 - |path|))
            && (EndsHuge(memory, table, level, va) <==> w.Some? && |path| < level)
    decreases level
  {
    hide SlotOf, Span;
    if table in memory {
      var e := memory[table][SlotOf(va, level)];
      if e.present && !e.huge && level > 1 {
        WalkReadsPath(memory, e.address, level - 1, va);
        var rest := Met(memory, e.address, level - 1, va);
        assert forall x :: x in [e] + rest <==> x == e || x in rest;
        if rest != [] {
          assert ([e] + rest)[|rest|] == rest[|rest| - 1];
        }
      } else if e.present && !e.huge {
        assert Met(memory, e.address, 0, va) == [];
      }
    }
  }

  function PageOf(va: nat): nat {
    va / 0x1000 * 0x1000
  }

  function HugeBase(va: nat): nat {
    va / 0x20_0000 * 0x20_0000
  }

  // ----- the shape -----

  /** Which table this is: its level, and the first address it translates. */
  datatype Place = Place(level: nat, base: nat)

  ghost predicate GoodPlace(p: Place) {
    && 1 <= p.level <= 4
    && p.base + 512 * Span(p.level) <= HIGHEST
    && p.base % (512 * Span(p.level)) == 0
    && (p.level < 4 ==> p.base / 0x80_0000_0000 == (p.base + 512 * Span(p.level) - 1) / 0x80_0000_0000)
  }

  function Covered(p: Place, i: nat): nat
    requires 1 <= p.level <= 4
  {
    p.base + i * Span(p.level)
  }

  /**
   * The table at each place; the 4 KiB pages given out to user code, and the frames behind them;
   * and the 2 MiB pages there are, each with the frame it leads to.
   */
  datatype Layout = Layout(tables: map<Place, nat>, yard: set<nat>, data: set<nat>, homes: map<nat, nat>)

  /** What a present entry may say, at its place. */
  ghost predicate Fits(e: Entry, p: Place, i: nat, l: Layout)
    requires 1 <= p.level <= 4
  {
    var va := Covered(p, i);
    if p.level == 1 then !e.huge && e.user && va in l.yard && e.address in l.data
    else if e.huge then p.level == 2 && e.writable && !e.user && va in l.homes && l.homes[va] == e.address
    else e.writable && Place(p.level - 1, va) in l.tables && l.tables[Place(p.level - 1, va)] == e.address
  }

  /**
   * A tree of tables that ends in 2 MiB pages without the user bit, which lead home, and in the
   * frames handed out for user code, which hold no tables.
   */
  ghost predicate Shape(memory: Memory, root: nat, l: Layout) {
    && Place(4, 0) in l.tables && l.tables[Place(4, 0)] == root
    && (forall p :: p in l.tables ==> 1 <= p.level <= 4 && GoodPlace(p) && l.tables[p] in memory)
    && (forall p, q :: p in l.tables && q in l.tables && l.tables[p] == l.tables[q] ==> p == q)
    && (forall p, i :: p in l.tables && 0 <= i < 512 && memory[l.tables[p]][i].present ==>
          Fits(memory[l.tables[p]][i], p, i, l))
    && l.data !! memory.Keys
    && forall d :: d in l.data ==> d % 4096 == 0
  }

  predicate HasEntry(memory: Memory, tables: map<Place, nat>, p: Place, i: int) {
    p in tables && 1 <= p.level <= 4 && tables[p] in memory && 0 <= i < 512
  }

  /** No user bit outside the yard's slot, at any level. */
  ghost predicate Secluded(memory: Memory, tables: map<Place, nat>) {
    forall p, i :: HasEntry(memory, tables, p, i) && UserAt(memory, tables[p], i) ==> InYard(Covered(p, i))
  }

  predicate UserAt(memory: Memory, t: nat, i: nat)
    requires t in memory && i < 512
  {
    memory[t][i].present && memory[t][i].user
  }

  ghost predicate Covers(p: Place, va: nat)
    requires 1 <= p.level <= 4
  {
    p.base <= va < p.base + 512 * Span(p.level)
  }

  /** The place of the table that a walk of this address looks at, at each level. */
  function PlaceOf(va: nat, level: nat): (p: Place)
    requires 1 <= level <= 4
    ensures p.level == level
    decreases 4 - level
  {
    if level == 4 then Place(4, 0)
    else Place(level, Covered(PlaceOf(va, level + 1), SlotOf(va, level + 1)))
  }

  lemma {:induction false} PlaceOfCovers(va: nat, level: nat)
    requires va < HIGHEST && 1 <= level <= 4
    ensures GoodPlace(PlaceOf(va, level)) && Covers(PlaceOf(va, level), va)
    ensures level < 4 && InYard(va) ==> InYard(PlaceOf(va, level).base)
    ensures level == 1 ==> PlaceOf(va, level).base == HugeBase(va)
    decreases 4 - level
  {
    hide SlotOf, InYard, HugeBase;
    if level < 4 {
      var p := PlaceOf(va, level + 1);
      PlaceOfCovers(va, level + 1);
      PickedEntryCovers(p, va);
      SubPlaceIsGood(p, SlotOf(va, level + 1));
      SpanNests(level + 1);
      if level == 1 {
        HugePage(p, SlotOf(va, 2), va);
      }
    }
  }

  /** The entry picked on the way to a yard address is of the yard. */
  lemma YardEntry(va: nat, level: nat)
    requires va < HIGHEST && 2 <= level <= 4
    ensures InYard(va) ==> InYard(Covered(PlaceOf(va, level), SlotOf(va, level)))
    ensures level == 2 ==> Covered(PlaceOf(va, level), SlotOf(va, level)) == HugeBase(va)
  {
    PlaceOfCovers(va, level - 1);
  }

  lemma {:induction false} HugeTranslates(memory: Memory, table: nat, level: nat, va: nat)
    requires level <= 4 && EndsHuge(memory, table, level, va)
    ensures Walk(memory, table, level, va).Some?
    decreases level
  {
    hide SlotOf;
    var e := memory[table][SlotOf(va, level)];
    if !e.huge {
      HugeTranslates(memory, e.address, level - 1, va);
    }
  }

  /** Dividing an offset into a run of 512 spans. */
  lemma OffsetInRun(k: nat, d: nat, level: nat)
    requires 1 <= level <= 4 && d < 512 * Span(level)
    ensures var s := Span(level);
            && d / s < 512
            && (k * (512 * s) + d) / s == k * 512 + d / s
            && (k * (512 * s) + d) % s == d - d / s * s
  {
    if level == 4 {
    } else if level == 3 {
    } else if level == 2 {
    } else {
    }
  }

  /** The entry the walk picks covers the address. */
  lemma PickedEntryCovers(p: Place, va: nat)
    requires 1 <= p.level <= 4 && GoodPlace(p) && Covers(p, va)
    ensures var i := SlotOf(va, p.level);
            && Covered(p, i) <= va < Covered(p, i) + Span(p.level)
            && va % Span(p.level) == va - Covered(p, i)
            && (InYard(va) <==> InYard(Covered(p, i)))
  {
    var s := Span(p.level);
    var k := p.base / (512 * s);
    var d := va - p.base;
    assert p.base == k * (512 * s);
    OffsetInRun(k, d, p.level);
    SlotIsOffset(p, va, k);
    var i := SlotOf(va, p.level);
    assert i == d / s;
    assert Covered(p, i) == p.base + d / s * s;
    if p.level == 4 {
      assert p.base == 0;
    } else {
      SameTopSlot(p, va);
      SameTopSlot(p, Covered(p, i));
    }
  }

  lemma SameTopSlot(p: Place, va: nat)
    requires GoodPlace(p) && p.level < 4 && p.base <= va < p.base + 512 * Span(p.level)
    ensures va / 0x80_0000_0000 == p.base / 0x80_0000_0000
  {
  }

  lemma SlotIsOffset(p: Place, va: nat, k: nat)
    requires 1 <= p.level <= 4 && p.base <= va
    requires va / Span(p.level) == k * 512 + (va - p.base) / Span(p.level) && (va - p.base) / Span(p.level) < 512
    ensures SlotOf(va, p.level) == (va - p.base) / Span(p.level)
  {
    WholeRunsDrop(k, (va - p.base) / Span(p.level));
    SlotIsQuotient(va, p.level);
  }

  lemma SlotIsQuotient(va: nat, level: nat)
    requires 1 <= level <= 4
    ensures SlotOf(va, level) == va / Span(level) % 512
  {
  }

  lemma WholeRunsDrop(k: nat, q: nat)
    requires q < 512
    ensures (k * 512 + q) % 512 == q
  {
  }

  /** An address is covered by one entry of one table at each level. */
  lemma OneEntryCovers(p: Place, i: nat, q: Place, j: nat)
    requires 1 <= p.level <= 4 && GoodPlace(p) && GoodPlace(q) && p.level == q.level && i < 512 && j < 512
    requires Covered(p, i) == Covered(q, j)
    ensures p == q && i == j
  {
    hide GoodPlace;
    var k := BaseIsWhole(p);
    var m := BaseIsWhole(q);
    RunsApart(k, i, m, j, p.level);
  }

  lemma BaseIsWhole(p: Place) returns (k: nat)
    requires GoodPlace(p)
    ensures 1 <= p.level <= 4 && p.base == k * (512 * Span(p.level))
  {
    k := p.base / (512 * Span(p.level));
  }

  lemma RunsApart(k: nat, i: nat, m: nat, j: nat, level: nat)
    requires 1 <= level <= 4 && i < 512 && j < 512
    requires k * (512 * Span(level)) + i * Span(level) == m * (512 * Span(level)) + j * Span(level)
    ensures k == m && i == j
  {
    if level == 4 {
    } else if level == 3 {
    } else if level == 2 {
    } else {
    }
  }

  /**
   * Every translation there is: through a 2 MiB page an address leads into that page's home and is
   * the kernel's alone; otherwise it is of a page that was given out, backed by a frame that holds
   * no table.
   */
  lemma {:induction false} TranslationsAreConfined(memory: Memory, root: nat, l: Layout, p: Place, va: nat)
    requires Shape(memory, root, l) && p in l.tables && Covers(p, va)
    ensures var w := Walk(memory, l.tables[p], p.level, va);
            w.Some? ==>
              if EndsHuge(memory, l.tables[p], p.level, va) then
                && HugeBase(va) in l.homes && w.value.physical == l.homes[HugeBase(va)] + va % 0x20_0000
                && !w.value.user && w.value.writable
              else
                && PageOf(va) in l.yard && PageOf(w.value.physical) in l.data
                && (w.value.user && Secluded(memory, l.tables) ==> InYard(va))
    decreases p.level
  {
    hide GoodPlace, InYard, SlotOf, PageOf, HugeBase;
    PickedEntryCovers(p, va);
    var i := SlotOf(va, p.level);
    var e := memory[l.tables[p]][i];
    if e.present {
      assert Fits(e, p, i, l);
      if p.level == 1 {
        LeafPage(p, i, va);
        PageOfFrame(e.address, va);
        assert UserAt(memory, l.tables[p], i);
      } else if e.huge {
        HugePage(p, i, va);
      } else {
        SpanNests(p.level);
        TranslationsAreConfined(memory, root, l, Place(p.level - 1, Covered(p, i)), va);
      }
    }
  }

  lemma LeafPage(p: Place, i: nat, va: nat)
    requires GoodPlace(p) && p.level == 1 && Covers(p, va) && i == SlotOf(va, 1)
    ensures Covered(p, i) == PageOf(va)
  {
    hide SlotOf;
    PickedEntryCovers(p, va);
    assert PageOf(va) == va - va % 0x1000;
  }

  lemma HugePage(p: Place, i: nat, va: nat)
    requires GoodPlace(p) && p.level == 2 && Covers(p, va) && i == SlotOf(va, 2)
    ensures Covered(p, i) == HugeBase(va)
  {
    hide SlotOf;
    PickedEntryCovers(p, va);
    assert HugeBase(va) == va - va % 0x20_0000;
  }

  lemma PageOfFrame(frame: nat, va: nat)
    requires frame % 4096 == 0
    ensures PageOf(frame + va % 0x1000) == frame
  {
  }

  lemma SpanNests(level: nat)
    requires 2 <= level <= 4
    ensures Span(level) == 512 * Span(level - 1)
  {
  }

  // ----- the changes the kernel makes -----

  function Put(memory: Memory, t: nat, i: nat, e: Entry): Memory
    requires t in memory && i < 512
  {
    memory[t := memory[t][i := e]]
  }

  const EMPTY: Table := Repeat(512, ABSENT)

  /** An entry stays what it is, caching aside; one that leads to a table may gain the user bit. */
  predicate Kept(e: Entry, e': Entry) {
    && e'.(uncached := false, user := false) == e.(uncached := false, user := false)
    && (e.user ==> e'.user)
    && (e.huge ==> e'.user == e.user)
  }

  /** All that the entry translates lies in this range. */
  predicate Exempt(p: Place, i: nat, start: nat, end: nat)
    requires 1 <= p.level <= 4
  {
    start <= Covered(p, i) && Covered(p, i) + Span(p.level) <= end
  }

  /** What is in use is kept; what was absent still is, or leads to an empty table. */
  ghost predicate Steady(e: Entry, e': Entry, level: nat, memory': Memory) {
    if e.present then Kept(e, e')
    else e'.present ==> level > 1 && !e'.huge && e'.address in memory' && memory'[e'.address] == EMPTY
  }

  /** All entries are steady, but for those of one range. */
  ghost predicate Grows(memory: Memory, memory': Memory, tables: map<Place, nat>, start: nat, end: nat) {
    forall p, i :: HasEntry(memory, tables, p, i) && !Exempt(p, i, start, end) ==>
      tables[p] in memory' && Steady(memory[tables[p]][i], memory'[tables[p]][i], p.level, memory')
  }

  /** Outside that range, what translated goes on doing so, to the same thing, and nothing else does. */
  lemma {:induction false} TranslationsPersist(
      memory: Memory, memory': Memory, root: nat, l: Layout, start: nat, end: nat, p: Place, va: nat)
    requires Shape(memory, root, l) && Grows(memory, memory', l.tables, start, end)
    requires p in l.tables && Covers(p, va) && !(start <= va < end)
    ensures var w, w' := Walk(memory, l.tables[p], p.level, va), Walk(memory', l.tables[p], p.level, va);
            if w.None? then w'.None?
            else
              && w'.Some? && w'.value.physical == w.value.physical && w'.value.writable == w.value.writable
              && (w.value.user ==> w'.value.user)
              && (EndsHuge(memory, l.tables[p], p.level, va) ==> !w.value.user && !w'.value.user)
    ensures EndsHuge(memory', l.tables[p], p.level, va) <==> EndsHuge(memory, l.tables[p], p.level, va)
    decreases p.level
  {
    hide GoodPlace, SlotOf;
    PickedEntryCovers(p, va);
    var i := SlotOf(va, p.level);
    var e, e' := memory[l.tables[p]][i], memory'[l.tables[p]][i];
    assert !Exempt(p, i, start, end) && Steady(e, e', p.level, memory');
    if e.present {
      assert Fits(e, p, i, l);
      if p.level > 1 && !e.huge {
        SpanNests(p.level);
        TranslationsPersist(memory, memory', root, l, start, end, Place(p.level - 1, Covered(p, i)), va);
      }
    } else {
      AbsentLeadsNowhere(memory', l.tables[p], p.level, va);
    }
  }

  /** Through an absent entry, or into an empty table, nothing translates. */
  lemma AbsentLeadsNowhere(memory: Memory, t: nat, level: nat, va: nat)
    requires 1 <= level <= 4 && t in memory && Steady(ABSENT, memory[t][SlotOf(va, level)], level, memory)
    ensures Walk(memory, t, level, va).None? && !EndsHuge(memory, t, level, va)
  {
    hide SlotOf;
    var e := memory[t][SlotOf(va, level)];
    if e.present {
      assert !EMPTY[SlotOf(va, level - 1)].present;
    }
  }

  /** With the user bit on every entry that leads to this address, down to the directory's. */
  function MarkPath(memory: Memory, table: nat, level: nat, va: nat): (marked: Memory)
    requires level <= 4
    ensures marked.Keys == memory.Keys
    decreases level
  {
    if level < 2 || table !in memory || !memory[table][SlotOf(va, level)].present then memory
    else
      var e := memory[table][SlotOf(va, level)];
      var marked := Put(memory, table, SlotOf(va, level), e.(user := true));
      if e.huge then marked else MarkPath(marked, e.address, level - 1, va)
  }

  lemma MarkStep(memory: Memory, table: nat, level: nat, va: nat)
    requires 2 <= level <= 4 && table in memory && memory[table][SlotOf(va, level)].present
    ensures var e := memory[table][SlotOf(va, level)];
            var marked := Put(memory, table, SlotOf(va, level), e.(user := true));
            MarkPath(memory, table, level, va) == if e.huge then marked else MarkPath(marked, e.address, level - 1, va)
  {
  }

  /** The walk looks at this entry. */
  predicate Looks(memory: Memory, table: nat, level: nat, va: nat, t: nat, i: nat)
    requires level <= 4
    decreases level
  {
    && level > 0 && table in memory
    && ((table == t && SlotOf(va, level) == i) ||
        (var e := memory[table][SlotOf(va, level)];
         e.present && !e.huge && Looks(memory, e.address, level - 1, va, t, i)))
  }

  /** What it does not look at does not matter to it. */
  lemma {:induction false} WalkUnread(memory: Memory, table: nat, level: nat, va: nat, t: nat, i: nat, e: Entry)
    requires level <= 4 && t in memory && i < 512 && !Looks(memory, table, level, va, t, i)
    ensures Walk(Put(memory, t, i, e), table, level, va) == Walk(memory, table, level, va)
    decreases level
  {
    hide SlotOf;
    if level > 0 && table in memory {
      var found := memory[table][SlotOf(va, level)];
      if found.present && level > 1 && !found.huge {
        WalkUnread(memory, found.address, level - 1, va, t, i, e);
      }
    }
  }

  lemma SubPlaceIsGood(p: Place, i: nat)
    requires GoodPlace(p) && p.level >= 2 && i < 512
    ensures GoodPlace(Place(p.level - 1, Covered(p, i)))
  {
    var va := Covered(p, i);
    if p.level == 4 {
      TopRun(i);
    } else if p.level == 3 {
      var k := p.base / 0x80_0000_0000;
      MiddleRun(k, i);
    } else {
      var k := p.base / 0x4000_0000;
      LowRun(k, i);
    }
  }

  lemma TopRun(i: nat)
    requires i < 512
    ensures var va := i * 0x80_0000_0000;
            && va % 0x80_0000_0000 == 0 && va + 0x80_0000_0000 <= HIGHEST
            && va / 0x80_0000_0000 == i == (va + 0x7f_ffff_ffff) / 0x80_0000_0000
  {
  }

  lemma MiddleRun(k: nat, i: nat)
    requires i < 512 && k * 0x80_0000_0000 + 0x80_0000_0000 <= HIGHEST
    ensures var va := k * 0x80_0000_0000 + i * 0x4000_0000;
            && va % 0x4000_0000 == 0 && va + 0x4000_0000 <= HIGHEST
            && va / 0x80_0000_0000 == k == (va + 0x3fff_ffff) / 0x80_0000_0000
  {
    assert k * 0x80_0000_0000 + i * 0x4000_0000 == (k * 512 + i) * 0x4000_0000;
  }

  lemma LowRun(k: nat, i: nat)
    requires i < 512 && k * 0x4000_0000 + 0x4000_0000 <= HIGHEST
    ensures var va := k * 0x4000_0000 + i * 0x20_0000;
            && va % 0x20_0000 == 0 && va + 0x20_0000 <= HIGHEST
            && va / 0x80_0000_0000 == k / 512 == (va + 0x1f_ffff) / 0x80_0000_0000
  {
    assert k * 0x4000_0000 + i * 0x20_0000 == (k * 512 + i) * 0x20_0000;
  }

  function WithTable(l: Layout, p: Place, t: nat): Layout {
    l.(tables := l.tables[p := t])
  }

  /** A fresh, empty table in an absent entry. */
  function Hung(memory: Memory, t: nat, i: nat, blank: nat, user: bool): Memory
    requires t in memory && i < 512
  {
    Put(memory[blank := EMPTY], t, i, Entry(true, true, user, false, false, blank))
  }

  lemma NewTableKeepsShape(memory: Memory, root: nat, l: Layout, p: Place, i: nat, blank: nat, user: bool)
    requires Shape(memory, root, l)
    requires p in l.tables && i < 512 && p.level >= 2 && !memory[l.tables[p]][i].present
    requires blank !in memory && blank !in l.data
    ensures var memory' := Hung(memory, l.tables[p], i, blank, user);
            var l' := WithTable(l, Place(p.level - 1, Covered(p, i)), blank);
            && Shape(memory', root, l')
            && Grows(memory, memory', l.tables, 0, 0)
            && (Secluded(memory, l.tables) && (user ==> InYard(Covered(p, i))) ==> Secluded(memory', l'.tables))
  {
    hide GoodPlace, Covered, InYard;
    var sub := Place(p.level - 1, Covered(p, i));
    SubPlaceIsGood(p, i);
    var l' := WithTable(l, sub, blank);
    var memory' := Hung(memory, l.tables[p], i, blank, user);
    HungElsewhere(memory, root, l, p, i, blank, user);
    forall q, j | q in l'.tables && 0 <= j < 512 && memory'[l'.tables[q]][j].present
      ensures Fits(memory'[l'.tables[q]][j], q, j, l')
    {
      if q != sub && (q != p || j != i) {
        assert Fits(memory[l.tables[q]][j], q, j, l);
        NobodyElseLeadsThere(p, i, q, j);
      }
    }
  }

  lemma HungElsewhere(memory: Memory, root: nat, l: Layout, p: Place, i: nat, blank: nat, user: bool)
    requires Shape(memory, root, l)
    requires p in l.tables && i < 512 && p.level >= 2 && !memory[l.tables[p]][i].present && blank !in memory
    ensures var memory' := Hung(memory, l.tables[p], i, blank, user);
            && Grows(memory, memory', l.tables, 0, 0)
            && (Secluded(memory, l.tables) && (user ==> InYard(Covered(p, i))) ==>
                  Secluded(memory', l.tables[Place(p.level - 1, Covered(p, i)) := blank]))
  {
    hide GoodPlace, Covered, InYard, Fits;
    var memory' := Hung(memory, l.tables[p], i, blank, user);
    var tables' := l.tables[Place(p.level - 1, Covered(p, i)) := blank];
    if Secluded(memory, l.tables) && (user ==> InYard(Covered(p, i))) {
      forall q, j | HasEntry(memory', tables', q, j) && UserAt(memory', tables'[q], j)
        ensures InYard(Covered(q, j))
      {
        assert tables'[q] != blank;
        assert q != p || j != i ==> UserAt(memory, l.tables[q], j);
      }
    }
  }

  /** No other entry leads where this one does. */
  lemma NobodyElseLeadsThere(p: Place, i: nat, q: Place, j: nat)
    requires GoodPlace(p) && GoodPlace(q) && i < 512 && j < 512 && (q != p || j != i)
    ensures q.level == p.level ==> Covered(q, j) != Covered(p, i)
  {
    if q.level == p.level && Covered(q, j) == Covered(p, i) {
      OneEntryCovers(p, i, q, j);
      assert false;
    }
  }

  /** Giving the user bit to an entry that leads to a table. */
  lemma UserBitKeepsShape(memory: Memory, root: nat, l: Layout, p: Place, i: nat)
    requires Shape(memory, root, l) && p in l.tables && i < 512 && p.level >= 2
    requires memory[l.tables[p]][i].present && !memory[l.tables[p]][i].huge
    ensures var memory' := Put(memory, l.tables[p], i, memory[l.tables[p]][i].(user := true));
            && Shape(memory', root, l)
            && Grows(memory, memory', l.tables, 0, 0)
            && (Secluded(memory, l.tables) && InYard(Covered(p, i)) ==> Secluded(memory', l.tables))
  {
    hide GoodPlace, Covered, InYard;
    var t := l.tables[p];
    var memory' := Put(memory, t, i, memory[t][i].(user := true));
    assert Fits(memory[t][i], p, i, l);
    forall q, j | q in l.tables && 0 <= j < 512 && memory'[l.tables[q]][j].present
      ensures Fits(memory'[l.tables[q]][j], q, j, l)
    {
      if q != p || j != i {
        assert Fits(memory[l.tables[q]][j], q, j, l);
      }
    }
    if Secluded(memory, l.tables) && InYard(Covered(p, i)) {
      forall q, j | HasEntry(memory', l.tables, q, j) && UserAt(memory', l.tables[q], j)
        ensures InYard(Covered(q, j))
      {
        assert q != p || j != i ==> UserAt(memory, l.tables[q], j);
      }
    }
  }

  /** With a 2 MiB page in place of whatever was there. */
  function WithPage(l: Layout, page: nat, physical: nat): Layout {
    var tables := map p | p in l.tables && p != Place(1, page) :: l.tables[p];
    Layout(tables, Beyond(l.yard, page), l.data, l.homes[page := physical])
  }

  /** The pages that are not within this 2 MiB page. */
  function Beyond(yard: set<nat>, page: nat): set<nat> {
    set q | q in yard && HugeBase(q) != page
  }

  /** Map 2 MiB anywhere, over whatever is there. */
  lemma HugePageKeepsShape(memory: Memory, root: nat, l: Layout, p: Place, i: nat, uncached: bool, physical: nat)
    requires Shape(memory, root, l) && p in l.tables && i < 512 && p.level == 2
    ensures var memory' := Put(memory, l.tables[p], i, Entry(true, true, false, true, uncached, physical));
            var l' := WithPage(l, Covered(p, i), physical);
            && Shape(memory', root, l')
            && Grows(memory, memory', l.tables, Covered(p, i), Covered(p, i) + 0x20_0000)
            && (Secluded(memory, l.tables) ==> Secluded(memory', l'.tables))
  {
    hide GoodPlace, Covered, InYard, HugeBase;
    var page := Covered(p, i);
    var memory' := Put(memory, l.tables[p], i, Entry(true, true, false, true, uncached, physical));
    var l' := WithPage(l, page, physical);
    forall q, j | q in l'.tables && 0 <= j < 512 && memory'[l'.tables[q]][j].present
      ensures Fits(memory'[l'.tables[q]][j], q, j, l')
    {
      if q != p || j != i {
        assert Fits(memory[l.tables[q]][j], q, j, l);
        NobodyElseLeadsThere(p, i, q, j);
        if q.level == 1 {
          LeafBase(q, j);
        }
      }
    }
    forall q, j | HasEntry(memory, l.tables, q, j) && !Exempt(q, j, page, page + 0x20_0000)
      ensures Steady(memory[l.tables[q]][j], memory'[l.tables[q]][j], q.level, memory')
    {
      assert q != p || j != i;
    }
    if Secluded(memory, l.tables) {
      forall q, j | HasEntry(memory', l'.tables, q, j) && UserAt(memory', l'.tables[q], j)
        ensures InYard(Covered(q, j))
      {
        assert UserAt(memory, l.tables[q], j);
      }
    }
  }

  lemma LeafBase(q: Place, j: nat)
    requires GoodPlace(q) && q.level == 1 && j < 512
    ensures HugeBase(Covered(q, j)) == q.base
  {
    var k := q.base / 0x20_0000;
    assert q.base == k * 0x20_0000;
    assert (k * 0x20_0000 + j * 0x1000) / 0x20_0000 == k;
  }

  /** Back one page with a frame that holds no table. */
  lemma LeafKeepsShape(memory: Memory, root: nat, l: Layout, p: Place, i: nat, frame: nat, writable: bool)
    requires Shape(memory, root, l) && p in l.tables && i < 512 && p.level == 1
    requires frame !in memory && frame % 4096 == 0
    ensures var memory' := Put(memory, l.tables[p], i, Entry(true, writable, true, false, false, frame));
            var l' := l.(yard := l.yard + {Covered(p, i)}, data := l.data + {frame});
            && Shape(memory', root, l')
            && Grows(memory, memory', l.tables, Covered(p, i), Covered(p, i) + 0x1000)
            && (Secluded(memory, l.tables) && InYard(Covered(p, i)) ==> Secluded(memory', l.tables))
  {
    hide GoodPlace, Covered, InYard;
    var memory' := Put(memory, l.tables[p], i, Entry(true, writable, true, false, false, frame));
    var l' := l.(yard := l.yard + {Covered(p, i)}, data := l.data + {frame});
    forall q, j | q in l.tables && 0 <= j < 512 && memory'[l.tables[q]][j].present
      ensures Fits(memory'[l.tables[q]][j], q, j, l')
    {
      if q != p || j != i {
        assert Fits(memory[l.tables[q]][j], q, j, l);
      }
    }
    forall q, j | HasEntry(memory, l.tables, q, j) && !Exempt(q, j, Covered(p, i), Covered(p, i) + 0x1000)
      ensures Steady(memory[l.tables[q]][j], memory'[l.tables[q]][j], q.level, memory')
    {
      assert q != p || j != i;
    }
    if Secluded(memory, l.tables) && InYard(Covered(p, i)) {
      forall q, j | HasEntry(memory', l.tables, q, j) && UserAt(memory', l.tables[q], j)
        ensures InYard(Covered(q, j))
      {
        assert q != p || j != i ==> UserAt(memory, l.tables[q], j);
      }
    }
  }
}
