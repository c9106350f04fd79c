/**
 * The kernel heap: a first-fit free list threaded through the free blocks themselves, spliced in
 * place. Free blocks and live allocations always tile the region exactly.
 */
module Heap {
  import opened Basics

  const MIN_BLOCK: nat := 16

  datatype FreeBlock = FreeBlock(size: nat, next: Option<nat>)

  /** Powers of two, which is what alignments are. */
  predicate IsPowerOfTwo(n: nat) {
    n == 1 || (n > 1 && n % 2 == 0 && IsPowerOfTwo(n / 2))
  }

  function NextMultiple(n: nat, m: nat): (r: nat)
    requires m > 0
    ensures n <= r < n + m
  {
    if n % m == 0 then n
    else
      MultipleAbove(n, m);
      n / m * m + m
  }

  lemma MultipleAbove(n: nat, m: nat)
    requires m > 0
    ensures n / m * m == n - n % m
    ensures (n / m * m + m) % m == 0
  {
    var q := n / m + 1;
    assert n / m * m + m == q * m;
    MultipleHasNoRemainder(q, m);
  }

  lemma MultipleHasNoRemainder(q: nat, m: nat)
    requires m > 0
    ensures q * m % m == 0
  {
    var x := q * m;
    var d := q - x / m;
    assert d * m == x - x / m * m == x % m;
    SmallMultipleIsZero(d, m);
  }

  lemma SmallMultipleIsZero(d: int, m: int)
    requires m > 0 && 0 <= d * m < m
    ensures d == 0
  {
    MultiplesAreFar(d, m);
  }

  lemma NextMultipleIsMultiple(n: nat, m: nat)
    requires m > 0
    ensures NextMultiple(n, m) % m == 0
  {
    MultipleAbove(n, m);
  }

  function EffectiveAlign(align: nat): (r: nat)
    ensures r >= 16 && r >= align && (r == 16 || r == align)
  {
    if align < MIN_BLOCK then MIN_BLOCK else align
  }

  function EffectiveSize(size: nat): (r: nat)
    ensures r >= 16 && r % 16 == 0 && size <= r
    ensures r == 16 || r < size + 16
  {
    NextMultipleIsMultiple(if size < MIN_BLOCK then MIN_BLOCK else size, 16);
    NextMultiple(if size < MIN_BLOCK then MIN_BLOCK else size, 16)
  }

  lemma HalfIsPower(n: nat)
    requires IsPowerOfTwo(n) && n > 1
    ensures n % 2 == 0 && IsPowerOfTwo(n / 2)
  {
  }

  lemma {:induction false} LargePowersAreMultiples(n: nat)
    requires IsPowerOfTwo(n) && n >= 16
    ensures n % 16 == 0
    decreases n
  {
    hide IsPowerOfTwo;
    HalfIsPower(n);
    if n >= 32 {
      LargePowersAreMultiples(n / 2);
    } else {
      HalfIsPower(n / 2);
      HalfIsPower(n / 2 / 2);
      HalfIsPower(n / 2 / 2 / 2);
    }
  }

  /** Bytes skipped to reach the alignment, and no more. */
  function Padding(address: nat, align: nat): (r: nat)
    requires align > 0
    ensures r < align && (address + r) % align == 0
  {
    NextMultipleIsMultiple(address, align);
    NextMultiple(address, align) - address
  }

  lemma AlignIsMultiple(align: nat)
    requires IsPowerOfTwo(align)
    ensures EffectiveAlign(align) % 16 == 0 && EffectiveAlign(align) >= 16
  {
    if align >= 16 {
      LargePowersAreMultiples(align);
    }
  }

  /** On the 16-byte quantum padding is nothing or a representable block. */
  lemma PaddingIsWhole(address: nat, align: nat)
    requires address % 16 == 0 && IsPowerOfTwo(align)
    ensures Padding(address, EffectiveAlign(align)) % 16 == 0
  {
    hide Padding, IsPowerOfTwo, EffectiveAlign;
    AlignIsMultiple(align);
    PaddingToMultiple(address, EffectiveAlign(align));
  }

  lemma PaddingToMultiple(address: nat, a: nat)
    requires address % 16 == 0 && a % 16 == 0 && a > 0
    ensures Padding(address, a) % 16 == 0
  {
    hide NextMultiple;
    NextMultipleIsMultiple(address, a);
    MultipleOfMultiple(NextMultiple(address, a), a);
  }

  lemma MultipleOfMultiple(n: nat, a: nat)
    requires a > 0 && a % 16 == 0 && n % a == 0
    ensures n % 16 == 0
  {
    var (q, k) := (n / a, a / 16);
    assert n == q * a && a == k * 16;
    var w := q * k;
    assert n == w * 16;
  }

  // ----- tiling -----

  /** Pieces laid end to end from `base` to `end`, on the quantum, none of them empty. */
  ghost predicate Tiles(pieces: map<nat, nat>, base: nat, end: nat) {
    && base in pieces
    && Whole(pieces, base, end)
    && (forall p {:trigger Leads(pieces, p, end)} :: p in pieces ==> Leads(pieces, p, end))
    && Apart(pieces)
  }

  ghost predicate Whole(pieces: map<nat, nat>, base: nat, end: nat) {
    forall p :: p in pieces ==>
      base <= p && p + pieces[p] <= end && p % 16 == 0 && pieces[p] % 16 == 0 && pieces[p] >= 16
  }

  /** The piece reaches the end of the region, or another one starts where it stops. */
  ghost predicate Leads(pieces: map<nat, nat>, p: nat, end: nat)
    requires p in pieces
  {
    p + pieces[p] == end || p + pieces[p] in pieces
  }

  ghost predicate Apart(pieces: map<nat, nat>) {
    forall p, q :: p in pieces && q in pieces && p < q ==> p + pieces[p] <= q
  }

  ghost predicate Within(pieces: map<nat, nat>, p: nat, a: nat) {
    p in pieces && p <= a < p + pieces[p]
  }

  /** Every byte of the region lies in exactly one piece. */
  lemma EveryByteInOnePiece(pieces: map<nat, nat>, base: nat, end: nat, a: nat)
    requires Tiles(pieces, base, end) && base <= a < end
    ensures exists p :: Within(pieces, p, a)
    ensures forall p, q :: Within(pieces, p, a) && Within(pieces, q, a) ==> p == q
  {
    var _ := PieceFrom(pieces, base, end, base, a);
  }

  lemma {:induction false} PieceFrom(pieces: map<nat, nat>, base: nat, end: nat, from: nat, a: nat) returns (p: nat)
    requires Tiles(pieces, base, end) && from in pieces && from <= a < end
    ensures Within(pieces, p, a)
    decreases a - from
  {
    if a < from + pieces[from] {
      return from;
    }
    assert Leads(pieces, from, end);
    p := PieceFrom(pieces, base, end, from + pieces[from], a);
  }

  /** One piece cut in two, `size` bytes from its start; nothing changes when one part is empty. */
  function Cut(pieces: map<nat, nat>, p: nat, size: nat): map<nat, nat>
    requires p in pieces && size <= pieces[p]
  {
    if size == 0 || size == pieces[p] then pieces else pieces[p := size][p + size := pieces[p] - size]
  }

  lemma CutTiles(pieces: map<nat, nat>, base: nat, end: nat, p: nat, size: nat)
    requires Tiles(pieces, base, end) && p in pieces && size <= pieces[p] && size % 16 == 0
    ensures Tiles(Cut(pieces, p, size), base, end)
    ensures forall q :: q in Cut(pieces, p, size) <==> q in pieces || (q == p + size && 0 < size < pieces[p])
    ensures 0 < size < pieces[p] ==> p + size !in pieces
  {
    hide Whole, Apart, Leads;
    if 0 < size < pieces[p] {
      var cut := Cut(pieces, p, size);
      CutIsWhole(pieces, base, end, p, size);
      CutIsApart(pieces, p, size);
      forall q | q in cut ensures Leads(cut, q, end) {
        assert Leads(pieces, if q == p + size then p else q, end);
        CutLeads(pieces, end, p, size, q);
      }
    }
  }

  lemma CutLeads(pieces: map<nat, nat>, end: nat, p: nat, size: nat, q: nat)
    requires p in pieces && 0 < size < pieces[p] && p + size !in pieces && q in Cut(pieces, p, size)
    requires Leads(pieces, if q == p + size then p else q, end)
    ensures Leads(Cut(pieces, p, size), q, end)
  {
  }

  lemma CutIsWhole(pieces: map<nat, nat>, base: nat, end: nat, p: nat, size: nat)
    requires Whole(pieces, base, end) && p in pieces && 0 < size < pieces[p] && size % 16 == 0
    ensures Whole(Cut(pieces, p, size), base, end)
  {
  }

  lemma CutIsApart(pieces: map<nat, nat>, p: nat, size: nat)
    requires Apart(pieces) && p in pieces && 0 < size < pieces[p]
    ensures Apart(Cut(pieces, p, size)) && p + size !in pieces
  {
    var cut := Cut(pieces, p, size);
    assert p + size !in pieces;
    forall q, r | q in cut && r in cut && q < r ensures q + cut[q] <= r {
      if r == p + size && q != p {
        assert q in pieces && q + pieces[q] <= p;
      } else if q == p + size {
        assert p + pieces[p] <= r;
      }
    }
  }

  // ----- the free list -----

  /** The address at position `i` of the list, or the end of it. */
  function At(blocks: seq<nat>, i: nat): Option<nat> {
    if i < |blocks| then Some(blocks[i]) else None
  }

  /** The header at position `i` leads to the next position. */
  ghost predicate LinksOn(headers: map<nat, FreeBlock>, blocks: seq<nat>, i: nat)
    requires i < |blocks| && blocks[i] in headers
  {
    headers[blocks[i]].next == At(blocks, i + 1)
  }

  /** From `head`, the headers chain through exactly these blocks. */
  ghost predicate Linked(headers: map<nat, FreeBlock>, head: Option<nat>, blocks: seq<nat>) {
    && head == At(blocks, 0)
    && (forall i :: 0 <= i < |blocks| ==> blocks[i] in headers)
    && (forall i {:trigger LinksOn(headers, blocks, i)} :: 0 <= i < |blocks| ==> LinksOn(headers, blocks, i))
    && Distinct(blocks)
    && (forall b :: b in headers ==> b in blocks)
  }

  ghost predicate SizesAgree(headers: map<nat, FreeBlock>, pieces: map<nat, nat>) {
    forall b :: b in headers ==> b in pieces && pieces[b] == headers[b].size
  }

  /** The pieces that are not free blocks. */
  ghost function LivePieces(headers: map<nat, FreeBlock>, pieces: map<nat, nat>): map<nat, nat> {
    map p | p in pieces && p !in headers :: pieces[p]
  }

  predicate Fits(headers: map<nat, FreeBlock>, b: nat, size: nat, align: nat)
    requires b in headers && align > 0
  {
    Padding(b, align) + size <= headers[b].size
  }

  /** The first block of the list with room for the padding and the size. */
  ghost predicate FirstThatFits(headers: map<nat, FreeBlock>, blocks: seq<nat>, i: nat, size: nat, align: nat)
    requires align > 0
  {
    && i < |blocks|
    && blocks[i] in headers && Fits(headers, blocks[i], size, align)
    && NoneBefore(headers, blocks, i, size, align)
  }

  ghost predicate NoneBefore(headers: map<nat, FreeBlock>, blocks: seq<nat>, i: nat, size: nat, align: nat)
    requires align > 0
  {
    forall j :: 0 <= j < i && j < |blocks| ==> blocks[j] in headers && !Fits(headers, blocks[j], size, align)
  }

  lemma NoneAtAll(headers: map<nat, FreeBlock>, head: Option<nat>, blocks: seq<nat>, size: nat, align: nat)
    requires align > 0 && Linked(headers, head, blocks) && NoneBefore(headers, blocks, |blocks|, size, align)
    ensures NothingFits(headers, size, align)
  {
    hide Fits, Distinct, At;
    forall b | b in headers ensures !Fits(headers, b, size, align) {
      var j :| 0 <= j < |blocks| && blocks[j] == b;
    }
  }

  ghost predicate IsFirstFit(headers: map<nat, FreeBlock>, blocks: seq<nat>, size: nat, align: nat, payload: nat)
    requires align > 0
  {
    exists i: nat :: FirstThatFits(headers, blocks, i, size, align) && payload == NextMultiple(blocks[i], align)
  }

  /** No free block has room for the padding and the size. */
  ghost predicate NothingFits(headers: map<nat, FreeBlock>, size: nat, align: nat)
    requires align > 0
  {
    forall b :: b in headers ==> !Fits(headers, b, size, align)
  }

  /** An address on a 16-byte multiple of the alignment serves the alignment asked for. */
  lemma AlignServes(payload: nat, alignment: nat)
    requires IsPowerOfTwo(alignment) && payload % EffectiveAlign(alignment) == 0
    ensures payload % alignment == 0
  {
    if alignment < 16 {
      assert payload % 16 == 0;
      SmallPower(alignment);
      DividesSixteen(payload, alignment);
    }
  }

  lemma DividesSixteen(n: nat, d: nat)
    requires n % 16 == 0 && (d == 1 || d == 2 || d == 4 || d == 8)
    ensures n % d == 0
  {
    var q := n / 16;
    assert n == 16 * q;
    if d == 1 {
      MultipleHasNoRemainder(16 * q, 1);
    } else if d == 2 {
      MultipleHasNoRemainder(8 * q, 2);
    } else if d == 4 {
      MultipleHasNoRemainder(4 * q, 4);
    } else {
      MultipleHasNoRemainder(2 * q, 8);
    }
  }

  lemma SmallPower(n: nat)
    requires IsPowerOfTwo(n) && n < 16
    ensures n == 1 || n == 2 || n == 4 || n == 8
  {
    if n > 1 {
      hide IsPowerOfTwo;
      HalfIsPower(n);
      if n / 2 > 1 {
        HalfIsPower(n / 2);
        if n / 4 > 1 {
          HalfIsPower(n / 2 / 2);
        }
      }
    }
  }

  /** The list with one block replaced by others. */
  function Replaced(blocks: seq<nat>, i: nat, mid: seq<nat>): (r: seq<nat>)
    requires i < |blocks|
    ensures |r| == |blocks| - 1 + |mid|
    ensures forall m :: 0 <= m < i ==> r[m] == blocks[m]
    ensures forall m :: i <= m < i + |mid| ==> r[m] == mid[m - i]
    ensures forall m :: i + |mid| <= m < |r| ==> r[m] == blocks[m - |mid| + 1]
  {
    blocks[..i] + mid + blocks[i + 1..]
  }

  ghost predicate Distinct(blocks: seq<nat>) {
    forall i, j :: 0 <= i < j < |blocks| ==> blocks[i] != blocks[j]
  }

  lemma ReplacedIsDistinct(blocks: seq<nat>, i: nat, mid: seq<nat>)
    requires i < |blocks| && Distinct(blocks) && Distinct(mid)
    requires forall k, j :: 0 <= k < |mid| && 0 <= j < |blocks| && j != i ==> mid[k] != blocks[j]
    ensures Distinct(Replaced(blocks, i, mid))
  {
    var after := Replaced(blocks, i, mid);
    hide Replaced;
    forall m, n | 0 <= m < n < |after| ensures after[m] != after[n] {
    }
  }

  /** What the links must be after replacing one block, seen from the old list. */
  ghost predicate Respliced(
    headers: map<nat, FreeBlock>, head: Option<nat>, blocks: seq<nat>, i: nat, mid: seq<nat>,
      headers': map<nat, FreeBlock>, head': Option<nat>)
    requires i < |blocks|
  {
    var after := Replaced(blocks, i, mid);
    && (forall b :: b in headers' <==> b in mid || (b in headers && b != blocks[i]))
    && (forall j :: 0 <= j < |blocks| && j != i && j + 1 != i && blocks[j] in headers && blocks[j] in headers' ==>
         headers'[blocks[j]].next == headers[blocks[j]].next)
    && (i > 0 ==> head' == head && blocks[i - 1] in headers' && headers'[blocks[i - 1]].next == At(after, i))
    && (i == 0 ==> head' == At(after, 0))
    && (forall k :: 0 <= k < |mid| ==> mid[k] in headers' && headers'[mid[k]].next == At(after, i + k + 1))
  }

  /** Replacing one block of the list by new ones, through the link that led to it. */
  lemma SpliceLinks(
      headers: map<nat, FreeBlock>, head: Option<nat>, blocks: seq<nat>, i: nat, mid: seq<nat>,
        headers': map<nat, FreeBlock>, head': Option<nat>)
    requires Linked(headers, head, blocks) && i < |blocks| && Distinct(mid)
    requires forall k, j :: 0 <= k < |mid| && 0 <= j < |blocks| && j != i ==> mid[k] != blocks[j]
    requires Respliced(headers, head, blocks, i, mid, headers', head')
    ensures Linked(headers', head', Replaced(blocks, i, mid))
  {
    hide Replaced, Distinct;
    var after := Replaced(blocks, i, mid);
    ReplacedIsDistinct(blocks, i, mid);
    forall m | 0 <= m < |after| ensures after[m] in headers' && LinksOn(headers', after, m) {
      SplicedNext(headers, head, blocks, i, mid, headers', head', m);
    }
    forall b | b in headers' ensures b in after {
      SplicedMember(headers, head, blocks, i, mid, headers', head', b);
    }
    if i > 0 {
      assert after[0] == blocks[0];
    }
  }

  /** Positions of the new list, told by those of the old one. */
  lemma ReplacedAt(blocks: seq<nat>, i: nat, mid: seq<nat>, m: nat)
    requires i < |blocks|
    ensures At(Replaced(blocks, i, mid), m) ==
              if m < i then At(blocks, m) else if m < i + |mid| then Some(mid[m - i]) else At(blocks, m - |mid| + 1)
  {
  }

  lemma SplicedNext(
      headers: map<nat, FreeBlock>, head: Option<nat>, blocks: seq<nat>, i: nat, mid: seq<nat>,
        headers': map<nat, FreeBlock>, head': Option<nat>, m: nat)
    requires Linked(headers, head, blocks) && i < |blocks| && m < |Replaced(blocks, i, mid)|
    requires Respliced(headers, head, blocks, i, mid, headers', head')
    ensures var after := Replaced(blocks, i, mid); after[m] in headers' && LinksOn(headers', after, m)
  {
    hide Linked, Respliced, Replaced, At, Distinct;
    var after := Replaced(blocks, i, mid);
    ReplacedAt(blocks, i, mid, m + 1);
    if m < i {
      assert after[m] == blocks[m];
      OldLinkStays(headers, head, blocks, i, mid, headers', head', m);
    } else if m < i + |mid| {
      assert after[m] == mid[m - i];
      NewLink(headers, head, blocks, i, mid, headers', head', m - i);
    } else {
      var j := m - |mid| + 1;
      assert after[m] == blocks[j];
      OldLinkStays(headers, head, blocks, i, mid, headers', head', j);
    }
  }

  lemma NewLink(
      headers: map<nat, FreeBlock>, head: Option<nat>, blocks: seq<nat>, i: nat, mid: seq<nat>,
        headers': map<nat, FreeBlock>, head': Option<nat>, k: nat)
    requires i < |blocks| && k < |mid| && Respliced(headers, head, blocks, i, mid, headers', head')
    ensures mid[k] in headers' && headers'[mid[k]].next == At(Replaced(blocks, i, mid), i + k + 1)
  {
    hide At, Replaced;
  }

  lemma OldLinkStays(
      headers: map<nat, FreeBlock>, head: Option<nat>, blocks: seq<nat>, i: nat, mid: seq<nat>,
        headers': map<nat, FreeBlock>, head': Option<nat>, j: nat)
    requires Linked(headers, head, blocks) && i < |blocks| && j < |blocks| && j != i
    requires Respliced(headers, head, blocks, i, mid, headers', head')
    ensures blocks[j] in headers' && headers'[blocks[j]].next == if j + 1 == i then At(Replaced(blocks, i, mid), i)
              else At(blocks, j + 1)
  {
    hide At, Replaced;
    assert blocks[j] in headers && blocks[j] != blocks[i];
    assert LinksOn(headers, blocks, j);
  }

  lemma SplicedMember(
      headers: map<nat, FreeBlock>, head: Option<nat>, blocks: seq<nat>, i: nat, mid: seq<nat>,
        headers': map<nat, FreeBlock>, head': Option<nat>, b: nat)
    requires Linked(headers, head, blocks) && i < |blocks| && b in headers'
    requires Respliced(headers, head, blocks, i, mid, headers', head')
    ensures b in Replaced(blocks, i, mid)
  {
    hide At, Distinct;
    var after := Replaced(blocks, i, mid);
    hide Replaced;
    if b in mid {
      var k :| 0 <= k < |mid| && mid[k] == b;
      assert after[i + k] == b;
    } else {
      var j :| 0 <= j < |blocks| && blocks[j] == b;
      assert after[if j < i then j else j - 1 + |mid|] == b;
    }
  }

  /** The free blocks that a carved block leaves, as they stand in the list. */
  function LeftOver(block: nat, padding: nat, size: nat, blockSize: nat): seq<nat> {
    (if blockSize >= padding + size + 16 then [block + padding + size] else []) + if padding >= 16 then [block] else []
  }

  /** The headers after carving, before the link to them is redirected; and what it should lead to. */
  function Carved(headers: map<nat, FreeBlock>, block: nat, padding: nat, size: nat): (map<nat, FreeBlock>, Option<nat>)
    requires block in headers && padding + size <= headers[block].size
  {
    var next := headers[block].next;
    var rest := headers[block].size - padding - size;
    var without := headers - {block};
    var (front, toFront) := if padding >= 16 then (without[block := FreeBlock(padding, next)], Some(block))
      else (without, next);
    if rest >= 16 then (front[block + padding + size := FreeBlock(rest, toFront)], Some(block + padding + size))
      else (front, toFront)
  }

  function Redirected(headers: map<nat, FreeBlock>, link: Option<nat>, next: Option<nat>): map<nat, FreeBlock> {
    if link.Some? && link.value in headers then headers[link.value := headers[link.value].(next := next)] else headers
  }

  /** The padding, the part used, and the rest. */
  function TwoCuts(pieces: map<nat, nat>, p: nat, padding: nat, size: nat): map<nat, nat>
    requires p in pieces && padding + size <= pieces[p] && size > 0
  {
    Cut(Cut(pieces, p, padding), p + padding, size)
  }

  lemma TwoCutsTile(pieces: map<nat, nat>, base: nat, end: nat, p: nat, padding: nat, size: nat)
    requires Tiles(pieces, base, end) && p in pieces && padding + size <= pieces[p]
    requires padding % 16 == 0 && size % 16 == 0 && size >= 16
    ensures Tiles(TwoCuts(pieces, p, padding, size), base, end)
    ensures padding > 0 ==> p + padding !in pieces
    ensures padding + size < pieces[p] ==> p + padding + size !in pieces
  {
    hide Tiles;
    CutTiles(pieces, base, end, p, padding);
    CutTiles(Cut(pieces, p, padding), base, end, p + padding, size);
  }

  lemma TwoCutsContents(pieces: map<nat, nat>, p: nat, padding: nat, size: nat, q: nat)
    requires p in pieces && padding + size <= pieces[p] && size > 0
    requires padding > 0 ==> p + padding !in pieces
    requires padding + size < pieces[p] ==> p + padding + size !in pieces
    ensures var (cut, rest) := (TwoCuts(pieces, p, padding, size), pieces[p] - padding - size);
            && (q in cut <==> q in pieces || q == p + padding || (rest > 0 && q == p + padding + size))
            && cut[p + padding] == size
            && (padding > 0 ==> cut[p] == padding)
            && (rest > 0 ==> cut[p + padding + size] == rest)
            && (q in pieces && q != p ==> cut[q] == pieces[q])
  {
  }

  lemma CarvedContents(headers: map<nat, FreeBlock>, block: nat, padding: nat, size: nat, link: Option<nat>, q: nat)
    requires block in headers && padding + size <= headers[block].size && size > 0
    requires padding % 16 == 0 && (headers[block].size - padding - size) % 16 == 0
    requires padding > 0 ==> block + padding !in headers
    requires link != Some(block) && (padding + size < headers[block].size ==> block + padding + size !in headers)
    ensures var (carved, next) := Carved(headers, block, padding, size);
            var (after, rest) := (Redirected(carved, link, next), headers[block].size - padding - size);
            && (q in after <==>
                 (q in headers && (q == block ==> padding > 0)) || (rest > 0 && q == block + padding + size))
            && (padding > 0 ==> block in after && after[block].size == padding)
            && (rest > 0 ==> block + padding + size in after && after[block + padding + size].size == rest)
            && (q in headers && q != block ==> after[q].size == headers[q].size)
  {
  }

  lemma CarvingAgrees(headers: map<nat, FreeBlock>, pieces: map<nat, nat>, block: nat, padding: nat, size: nat,
        link: Option<nat>)
    requires SizesAgree(headers, pieces) && block in headers && padding + size <= headers[block].size && size > 0
    requires padding % 16 == 0 && (headers[block].size - padding - size) % 16 == 0 && link != Some(block)
    requires padding > 0 ==> block + padding !in pieces
    requires padding + size < headers[block].size ==> block + padding + size !in pieces
    ensures var (carved, next) := Carved(headers, block, padding, size);
            var (after, cut) := (Redirected(carved, link, next), TwoCuts(pieces, block, padding, size));
            && SizesAgree(after, cut)
            && block + padding !in LivePieces(headers, pieces)
            && LivePieces(after, cut) == LivePieces(headers, pieces)[block + padding := size]
  {
    var (carved, next) := Carved(headers, block, padding, size);
    var (after, cut) := (Redirected(carved, link, next), TwoCuts(pieces, block, padding, size));
    hide Carved, Redirected, TwoCuts;
    forall q | q in after ensures q in cut && cut[q] == after[q].size {
      CarvedContents(headers, block, padding, size, link, q);
      TwoCutsContents(pieces, block, padding, size, q);
    }
    var (live, live') := (LivePieces(headers, pieces)[block + padding := size], LivePieces(after, cut));
    forall q ensures (q in live <==> q in live') && (q in live ==> live[q] == live'[q]) {
      CarvedContents(headers, block, padding, size, link, q);
      TwoCutsContents(pieces, block, padding, size, q);
    }
  }

  lemma CarvingLinks(headers: map<nat, FreeBlock>, head: Option<nat>, blocks: seq<nat>, i: nat, padding: nat, size: nat)
    requires Linked(headers, head, blocks) && i < |blocks| && blocks[i] in headers
    requires padding + size <= headers[blocks[i]].size && size > 0
    requires padding % 16 == 0 && (headers[blocks[i]].size - padding - size) % 16 == 0
    requires padding + size < headers[blocks[i]].size ==> blocks[i] + padding + size !in headers
    ensures var (block, link) := (blocks[i], if i == 0 then None else Some(blocks[i - 1]));
            var (carved, next) := Carved(headers, block, padding, size);
            && (link.Some? ==> link.value in carved && link != Some(block))
            && Linked(Redirected(carved, link, next), if i == 0 then next else head,
                 Replaced(blocks, i, LeftOver(block, padding, size, headers[block].size)))
  {
    var (block, link) := (blocks[i], if i == 0 then None else Some(blocks[i - 1]));
    var (carved, next) := Carved(headers, block, padding, size);
    var mid := LeftOver(block, padding, size, headers[block].size);
    var (after, head') := (Redirected(carved, link, next), if i == 0 then next else head);
    LeftOverApart(headers, head, blocks, i, padding, size);
    CarvingResplices(headers, head, blocks, i, padding, size);
    hide Carved, Redirected, LeftOver, Replaced, Respliced;
    SpliceLinks(headers, head, blocks, i, mid, after, head');
  }

  lemma LeftOverApart(headers: map<nat, FreeBlock>, head: Option<nat>, blocks: seq<nat>, i: nat, padding: nat,
        size: nat)
    requires Linked(headers, head, blocks) && i < |blocks| && blocks[i] in headers
    requires padding + size <= headers[blocks[i]].size && size > 0
    requires padding + size < headers[blocks[i]].size ==> blocks[i] + padding + size !in headers
    ensures var mid := LeftOver(blocks[i], padding, size, headers[blocks[i]].size);
            && Distinct(mid)
            && forall k, j :: 0 <= k < |mid| && 0 <= j < |blocks| && j != i ==> mid[k] != blocks[j]
  {
    hide At;
    forall j | 0 <= j < |blocks| ensures blocks[j] in headers && (j != i ==> blocks[j] != blocks[i]) {
    }
  }

  lemma CarvedNexts(headers: map<nat, FreeBlock>, block: nat, padding: nat, size: nat, link: Option<nat>, q: nat)
    requires block in headers && padding + size <= headers[block].size && size > 0
    requires padding % 16 == 0 && (headers[block].size - padding - size) % 16 == 0
    requires link != Some(block) && (padding + size < headers[block].size ==> block + padding + size !in headers)
    requires link.Some? ==> link.value in headers
    ensures var ((carved, next), rest) := (Carved(headers, block, padding, size), headers[block].size - padding - size);
            var after := Redirected(carved, link, next);
            var front := if padding > 0 then Some(block) else headers[block].next;
            && next == (if rest > 0 then Some(block + padding + size) else front)
            && (padding > 0 ==> block in after && after[block].next == headers[block].next)
            && (rest > 0 ==> block + padding + size in after && after[block + padding + size].next == front)
            && (link.Some? ==> link.value in carved && link.value in after && after[link.value].next == next)
            && (q in headers && q != block && link != Some(q) ==> q in after && after[q].next == headers[q].next)
            && (q in after <==>
                 (q in headers && (q == block ==> padding > 0)) || (rest > 0 && q == block + padding + size))
  {
  }

  lemma CarvingResplices(headers: map<nat, FreeBlock>, head: Option<nat>, blocks: seq<nat>, i: nat, padding: nat,
        size: nat)
    requires Linked(headers, head, blocks) && i < |blocks| && blocks[i] in headers
    requires padding + size <= headers[blocks[i]].size && size > 0
    requires padding % 16 == 0 && (headers[blocks[i]].size - padding - size) % 16 == 0
    requires padding + size < headers[blocks[i]].size ==> blocks[i] + padding + size !in headers
    ensures var (block, link) := (blocks[i], if i == 0 then None else Some(blocks[i - 1]));
            var (carved, next) := Carved(headers, block, padding, size);
            && (link.Some? ==> link.value in carved && link != Some(block))
            && Respliced(headers, head, blocks, i, LeftOver(block, padding, size, headers[block].size),
                 Redirected(carved, link, next), if i == 0 then next else head)
  {
    hide Carved, Redirected, Replaced, At, LeftOver;
    var (block, link) := (blocks[i], if i == 0 then None else Some(blocks[i - 1]));
    assert link.Some? ==> link.value in headers && link.value != block;
    CarvedNexts(headers, block, padding, size, link, block);
    CarvedMembers(headers, block, padding, size, link);
    CarvedOthers(headers, head, blocks, i, padding, size);
    CarvedNewLinks(headers, head, blocks, i, padding, size);
  }

  /** The new blocks lead to one another and then to what followed the old one. */
  lemma CarvedNewLinks(headers: map<nat, FreeBlock>, head: Option<nat>, blocks: seq<nat>, i: nat, padding: nat,
        size: nat)
    requires Linked(headers, head, blocks) && i < |blocks| && blocks[i] in headers
    requires padding + size <= headers[blocks[i]].size && size > 0
    requires padding % 16 == 0 && (headers[blocks[i]].size - padding - size) % 16 == 0
    requires padding + size < headers[blocks[i]].size ==> blocks[i] + padding + size !in headers
    ensures var (block, link) := (blocks[i], if i == 0 then None else Some(blocks[i - 1]));
            var (carved, next) := Carved(headers, block, padding, size);
            var (mid, after) := (LeftOver(block, padding, size, headers[block].size), Redirected(carved, link, next));
            && next == At(Replaced(blocks, i, mid), i)
            && forall k :: 0 <= k < |mid| ==>
                 mid[k] in after && after[mid[k]].next == At(Replaced(blocks, i, mid), i + k + 1)
  {
    hide Carved, Redirected, Replaced, At, LeftOver;
    var (block, link) := (blocks[i], if i == 0 then None else Some(blocks[i - 1]));
    assert link.Some? ==> link.value in headers && link.value != block;
    assert LinksOn(headers, blocks, i);
    hide Linked;
    var mid := LeftOver(block, padding, size, headers[block].size);
    ReplacedAt(blocks, i, mid, i);
    ReplacedAt(blocks, i, mid, i + 1);
    ReplacedAt(blocks, i, mid, i + 2);
    CarvedNexts(headers, block, padding, size, link, block);
    LeftOverIs(block, padding, size, headers[block].size);
  }

  lemma LeftOverIs(block: nat, padding: nat, size: nat, blockSize: nat)
    requires padding + size <= blockSize && padding % 16 == 0 && (blockSize - padding - size) % 16 == 0
    ensures LeftOver(block, padding, size, blockSize) ==
              if blockSize > padding +
                size then (if padding > 0 then [block + padding + size, block] else [block + padding + size])
              else if padding > 0 then [block] else []
  {
  }

  lemma CarvedMembers(headers: map<nat, FreeBlock>, block: nat, padding: nat, size: nat, link: Option<nat>)
    requires block in headers && padding + size <= headers[block].size && size > 0
    requires padding % 16 == 0 && (headers[block].size - padding - size) % 16 == 0
    requires link != Some(block) && (padding + size < headers[block].size ==> block + padding + size !in headers)
    requires link.Some? ==> link.value in headers
    ensures var (carved, next) := Carved(headers, block, padding, size);
            forall b :: b in Redirected(carved, link, next) <==>
              b in LeftOver(block, padding, size, headers[block].size) || (b in headers && b != block)
  {
    var (carved, next) := Carved(headers, block, padding, size);
    hide Carved, Redirected;
    forall b
      ensures b in Redirected(carved, link, next) <==>
                b in LeftOver(block, padding, size, headers[block].size) || (b in headers && b != block)
    {
      CarvedNexts(headers, block, padding, size, link, b);
    }
  }

  lemma CarvedOthers(headers: map<nat, FreeBlock>, head: Option<nat>, blocks: seq<nat>, i: nat, padding: nat, size: nat)
    requires Linked(headers, head, blocks) && i < |blocks| && blocks[i] in headers
    requires padding + size <= headers[blocks[i]].size && size > 0
    requires padding % 16 == 0 && (headers[blocks[i]].size - padding - size) % 16 == 0
    requires padding + size < headers[blocks[i]].size ==> blocks[i] + padding + size !in headers
    ensures var (block, link) := (blocks[i], if i == 0 then None else Some(blocks[i - 1]));
            var (carved, next) := Carved(headers, block, padding, size);
            var after := Redirected(carved, link, next);
            forall j :: 0 <= j < |blocks| && j != i && j + 1 != i && blocks[j] in headers && blocks[j] in after ==>
              after[blocks[j]].next == headers[blocks[j]].next
  {
    var (block, link) := (blocks[i], if i == 0 then None else Some(blocks[i - 1]));
    var (carved, next) := Carved(headers, block, padding, size);
    var after := Redirected(carved, link, next);
    hide Carved, Redirected, At;
    assert link.Some? ==> link.value in headers && link.value != block;
    forall j | 0 <= j < |blocks| && j != i && j + 1 != i && blocks[j] in headers && blocks[j] in after
      ensures after[blocks[j]].next == headers[blocks[j]].next
    {
      assert link != Some(blocks[j]);
      CarvedNexts(headers, block, padding, size, link, blocks[j]);
    }
  }

  lemma PushLinks(headers: map<nat, FreeBlock>, head: Option<nat>, blocks: seq<nat>, pointer: nat, size: nat)
    requires Linked(headers, head, blocks) && pointer !in headers
    ensures Linked(headers[pointer := FreeBlock(size, head)], Some(pointer), [pointer] + blocks)
  {
    var (longer, after) := ([pointer] + blocks, headers[pointer := FreeBlock(size, head)]);
    forall m | 0 <= m < |longer| ensures longer[m] in after && LinksOn(after, longer, m) {
      if m > 0 {
        assert longer[m] == blocks[m - 1] && LinksOn(headers, blocks, m - 1);
      }
    }
    assert Distinct(longer);
    forall b | b in after ensures b in longer {
      if b == pointer {
        assert longer[0] == b;
      }
    }
  }

  class FreeList {
    const base: nat
    const end: nat
    var head: Option<nat>
    /** The headers, each stored in the free block itself. */
    var headers: map<nat, FreeBlock>
    ghost var blocks: seq<nat>
    ghost var pieces: map<nat, nat>

    ghost predicate Valid()
      reads this
    {
      Linked(headers, head, blocks) && SizesAgree(headers, pieces) && Tiles(pieces, base, end)
    }

    /** What is allocated: address to size. */
    ghost function Live(): map<nat, nat>
      reads this
    {
      LivePieces(headers, pieces)
    }

    /** One free block over the whole region. */
    constructor (base: nat, size: nat)
      requires base % 16 == 0 && size % 16 == 0 && size >= 16
      ensures Valid() && Live() == map[] && this.base == base && end == base + size
    {
      this.base, end := base, base + size;
      head := Some(base);
      headers := map[base := FreeBlock(size, None)];
      blocks := [base];
      pieces := map[base := size];
    }

    /** First fit, cutting padding off the left and the remainder off the right. */
    method Alloc(requested: nat, alignment: nat) returns (r: Option<nat>)
      requires Valid() && alignment > 0 && IsPowerOfTwo(alignment)
      modifies this
      ensures Valid()
      ensures r.None? <==> NothingFits(old(headers), EffectiveSize(requested), EffectiveAlign(alignment))
      ensures r.None? ==> headers == old(headers) && Live() == old(Live())
      ensures r.Some? ==>
                && r.value % alignment == 0
                && r.value !in old(Live())
                && Live() == old(Live())[r.value := EffectiveSize(requested)]
      ensures r.Some? ==>
                IsFirstFit(old(headers), old(blocks), EffectiveSize(requested), EffectiveAlign(alignment), r.value)
    {
      hide Tiles, IsPowerOfTwo, Distinct, NextMultiple, EffectiveAlign, LivePieces;
      AlignIsMultiple(alignment);
      var size := EffectiveSize(requested);
      var align := EffectiveAlign(alignment);
      var link: Option<nat> := None;
      ghost var i := 0;
      while true
        invariant unchanged(this) && 0 <= i <= |blocks|
        invariant link == if i == 0 then None else Some(blocks[i - 1])
        invariant NoneBefore(headers, blocks, i, size, align)
        decreases |blocks| - i
      {
        assert i > 0 ==> LinksOn(headers, blocks, i - 1);
        var candidate := if link.None? then head else headers[link.value].next;
        if candidate.None? {
          NoneAtAll(headers, head, blocks, size, align);
          return None;
        }
        var block := candidate.value;
        var payload := NextMultiple(block, align);
        var padding := payload - block;
        if padding != 0 && padding < MIN_BLOCK {
          BlockOnQuantum(block);
          PaddingIsWhole(block, alignment);
          assert false;
        }
        if headers[block].size < padding + size {
          link := Some(block);
          i := i + 1;
          continue;
        }
        BlockOnQuantum(block);
        PaddingIsWhole(block, alignment);
        NextMultipleIsMultiple(block, align);
        AlignServes(payload, alignment);
        assert FirstThatFits(headers, blocks, i, size, align);
        Take(link, block, padding, size, i);
        return Some(payload);
      }
    }

    lemma BlockOnQuantum(b: nat)
      requires Valid() && b in headers
      ensures b % 16 == 0 && headers[b].size % 16 == 0 && headers[b].size >= 16
    {
      hide Linked, Leads, Apart;
    }

    /** Carving the block at position `i` keeps the list linked. */
    lemma CarvingKeepsList(i: nat, padding: nat, size: nat)
      requires Valid() && i < |blocks| && blocks[i] in headers
      requires padding % 16 == 0 && size % 16 == 0 && size >= 16 && padding + size <= headers[blocks[i]].size
      ensures var (block, link) := (blocks[i], if i == 0 then None else Some(blocks[i - 1]));
              var (carved, next) := Carved(headers, block, padding, size);
              && (link.Some? ==> link.value in carved && link.value != block)
              && Linked(Redirected(carved, link, next), if i == 0 then next else head,
                   Replaced(blocks, i, LeftOver(block, padding, size, headers[block].size)))
    {
      hide Carved, Redirected, Replaced, LeftOver, Tiles, Linked;
      BlockOnQuantum(blocks[i]);
      CarvingIsFree(i, padding, size);
      CarvingLinks(headers, head, blocks, i, padding, size);
    }

    /** Where the pieces are cut, no piece started before. */
    lemma CarvingIsFree(i: nat, padding: nat, size: nat)
      requires Valid() && i < |blocks| && blocks[i] in headers
      requires padding % 16 == 0 && size % 16 == 0 && size >= 16 && padding + size <= headers[blocks[i]].size
      ensures blocks[i] in pieces && pieces[blocks[i]] == headers[blocks[i]].size
      ensures Tiles(TwoCuts(pieces, blocks[i], padding, size), base, end)
      ensures padding > 0 ==> blocks[i] + padding !in pieces
      ensures padding + size < headers[blocks[i]].size ==>
                blocks[i] + padding + size !in pieces && blocks[i] + padding + size !in headers
    {
      hide Tiles, Linked, TwoCuts;
      TwoCutsTile(pieces, base, end, blocks[i], padding, size);
    }

    /** Carving the block at position `i` keeps the region tiled, and turns one part of it live. */
    lemma CarvingKeepsPieces(i: nat, padding: nat, size: nat)
      requires Valid() && i < |blocks| && blocks[i] in headers
      requires padding % 16 == 0 && size % 16 == 0 && size >= 16 && padding + size <= headers[blocks[i]].size
      ensures blocks[i] in pieces && padding + size <= pieces[blocks[i]]
      ensures var (block, link) := (blocks[i], if i == 0 then None else Some(blocks[i - 1]));
              var (carved, next) := Carved(headers, block, padding, size);
              var (after, cut) := (Redirected(carved, link, next), TwoCuts(pieces, block, padding, size));
              && SizesAgree(after, cut) && Tiles(cut, base, end)
              && block + padding !in LivePieces(headers, pieces)
              && LivePieces(after, cut) == LivePieces(headers, pieces)[block + padding := size]
    {
      hide Carved, Redirected, Replaced, LeftOver, Tiles, Linked, TwoCuts, LivePieces;
      BlockOnQuantum(blocks[i]);
      CarvingIsFree(i, padding, size);
      CarvingKeepsList(i, padding, size);
      CarvingAgrees(headers, pieces, blocks[i], padding, size, if i == 0 then None else Some(blocks[i - 1]));
    }

    /** Take a block out of the list; what is cut off goes back in its place. */
    method Take(link: Option<nat>, block: nat, padding: nat, size: nat, ghost i: nat)
      requires Valid() && i < |blocks| && blocks[i] == block && block in headers
      requires link == if i == 0 then None else Some(blocks[i - 1])
      requires padding % 16 == 0 && size % 16 == 0 && size >= 16 && padding + size <= headers[block].size
      modifies this
      ensures Valid()
      ensures block + padding !in old(Live()) && Live() == old(Live())[block + padding := size]
    {
      hide Tiles, Linked, SizesAgree, LivePieces, Replaced;
      CarvingKeepsList(i, padding, size);
      CarvingKeepsPieces(i, padding, size);
      blocks := Replaced(blocks, i, LeftOver(block, padding, size, headers[block].size));
      pieces := TwoCuts(pieces, block, padding, size);
      var remainderNext := headers[block].next;
      var blockSize := headers[block].size;
      headers := headers - {block};
      if padding >= MIN_BLOCK {
        headers := headers[block := FreeBlock(padding, remainderNext)];
        remainderNext := Some(block);
      }
      var used := padding + size;
      if blockSize - used >= MIN_BLOCK {
        headers := headers[block + used := FreeBlock(blockSize - used, remainderNext)];
        remainderNext := Some(block + used);
      }
      if link.None? {
        head := remainderNext;
      } else {
        headers := headers[link.value := headers[link.value].(next := remainderNext)];
      }
    }

    /** Put a block back at the front of the list, its size recomputed from the same layout. */
    method Dealloc(pointer: nat, requested: nat)
      requires Valid() && pointer in Live() && Live()[pointer] == EffectiveSize(requested)
      modifies this
      ensures Valid() && Live() == old(Live()) - {pointer}
      ensures pointer in headers && headers[pointer].size == EffectiveSize(requested)
    {
      hide Tiles, Linked;
      PushLinks(headers, head, blocks, pointer, EffectiveSize(requested));
      headers := headers[pointer := FreeBlock(EffectiveSize(requested), head)];
      head := Some(pointer);
      blocks := [pointer] + blocks;
    }

    /** Every byte of the region is in exactly one piece: a free block or a live allocation. */
    lemma Partition(a: nat)
      requires Valid() && base <= a < end
      ensures exists p :: Within(pieces, p, a) && (p in headers <==> p !in Live())
      ensures forall p, q :: Within(pieces, p, a) && Within(pieces, q, a) ==> p == q
    {
      hide Tiles, Linked;
      EveryByteInOnePiece(pieces, base, end, a);
    }

    /** Live allocations are on the quantum, inside the region, and do not overlap. */
    lemma LiveAreApart(p: nat, q: nat)
      requires Valid() && p in Live() && q in Live() && p < q
      ensures base <= p && p + Live()[p] <= q && q + Live()[q] <= end && p % 16 == 0
    {
      hide Linked, Leads;
    }
  }
}
