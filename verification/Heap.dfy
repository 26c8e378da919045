/** The allocators of heap_4.c and heap_5.c. The two files share `pvPortMalloc`, `vPortFree` and
    `prvInsertBlockIntoFreeList`; heap_4 is the case of a single region. */
module Heap {
  import opened Common
  import opened HeapLayout
  import opened Sums

  const NULL: nat := 0

  /** xBlockAllocatedBit: the top bit of `size_t`, set in the size of a block the application owns. */
  type TopBit = b: int | 4 <= b witness 0x8000
  const ALLOCATED_BIT: TopBit

  /** `BlockLink_t`. */
  datatype BlockLink = BlockLink(next: nat, size: nat)

  type Headers = map<nat, BlockLink>

  /** The free list: from `start`, where no block is, through free blocks and end markers in
      address order to the last end marker. */
  ghost predicate Chain(c: seq<nat>, headers: Headers, free: Blocks, marks: set<nat>, start: nat, end: nat) {
    && 2 <= |c| && c[0] == start && c[|c| - 1] == end && end in marks
    && Path(c, headers) && Ascending(c, start) && Listed(c, headers, free, marks)
    && headers[end].next == NULL && headers[start].size == 0
  }

  ghost predicate Path(c: seq<nat>, headers: Headers) {
    && (forall i {:trigger c[i] in headers} :: 0 <= i < |c| ==> c[i] in headers)
    && (forall i {:trigger headers[c[i]]} :: 0 <= i < |c| - 1 ==> headers[c[i]].next == c[i + 1])
  }

  ghost predicate Ascending(c: seq<nat>, start: nat) {
    && (forall i :: 1 <= i < |c| ==> 0 < c[i] && c[i] != start)
    && (forall i, j :: 1 <= i < j < |c| ==> c[i] < c[j])
  }

  ghost predicate Listed(c: seq<nat>, headers: Headers, free: Blocks, marks: set<nat>)
    requires Path(c, headers)
  {
    && (forall i {:trigger headers[c[i]]} {:trigger c[i] in free} :: 1 <= i < |c| ==>
          if c[i] in free then headers[c[i]].size == free[c[i]] else c[i] in marks && headers[c[i]].size == 0)
    && (forall a :: a in free ==> exists i :: 1 <= i < |c| && c[i] == a)
  }

  /** Which blocks are the application's can be read off the headers. */
  ghost predicate Owned(headers: Headers, live: Blocks) {
    && (forall a :: a in live ==> a in headers && headers[a] == BlockLink(NULL, live[a] + ALLOCATED_BIT))
    && (forall a :: a in headers && headers[a].size >= ALLOCATED_BIT ==> a in live)
  }

  lemma OwnedAt(headers: Headers, live: Blocks, a: nat)
    requires Owned(headers, live) && a in live
    ensures a in headers && headers[a] == BlockLink(NULL, live[a] + ALLOCATED_BIT)
  {
  }

  ghost function Elements(c: seq<nat>): set<nat> {
    set x | x in c
  }

  /** Only headers at the addresses in `t` are written, and none of them is marked allocated. */
  ghost predicate OnlyTouched(h: Headers, h': Headers, t: set<nat>) {
    && (forall x :: x !in t ==> (x in h <==> x in h') && (x in h ==> h'[x] == h[x]))
    && (forall x :: x in h' && x in t ==> h'[x].size < ALLOCATED_BIT)
  }

  lemma OwnedReleased(h: Headers, live: Blocks, t: set<nat>, a: nat, h': Headers)
    requires Owned(h, live) && a in live && a in t && (forall x :: x in live && x in t ==> x == a)
    requires OnlyTouched(h[a := BlockLink(NULL, live[a])], h', t)
    ensures Owned(h', live - {a})
  {
  }

  lemma OwnedHanded(h: Headers, live: Blocks, t: set<nat>, a: nat, h': Headers)
    requires Owned(h, live) && (forall x :: x in live ==> x !in t) && a in t
    requires OnlyTouched(h, h', t) && a in h'
    ensures Owned(h'[a := BlockLink(NULL, h'[a].size + ALLOCATED_BIT)], live[a := h'[a].size])
  {
  }

  /** The headers of a block and of what is cut off its end. */
  ghost predicate IsCut(h: Headers, h': Headers, block: nat, wanted: nat, size: nat) {
    && (forall x :: x != block && x != block + wanted ==> (x in h <==> x in h') && (x in h ==> h'[x] == h[x]))
    && block in h' && h'[block].size == wanted && 0 < wanted < size
    && block + wanted in h' && h'[block + wanted].size == size - wanted
  }

  /** Cutting a block and then inserting its end touches these headers only, and leaves the size of the block as cut. */
  lemma SplitTouched(h: Headers, h1: Headers, h2: Headers, c: seq<nat>, block: nat, wanted: nat, size: nat)
    requires IsCut(h, h1, block, wanted, size) && wanted < ALLOCATED_BIT && block !in c && 0 < wanted
    requires OnlyTouched(h1, h2, Elements(c) + {block + wanted})
    ensures OnlyTouched(h, h2, Elements(c) + {block, block + wanted}) && block in h2 && h2[block].size == wanted
  {
  }

  lemma TouchedTwice(h: Headers, t: set<nat>, h1: Headers, t': set<nat>, h2: Headers)
    requires OnlyTouched(h, h1, t) && OnlyTouched(h1, h2, t')
    ensures OnlyTouched(h, h2, t + t')
  {
  }

  /** The lowest free block that is large enough. */
  ghost predicate FirstFit(free: Blocks, block: nat, size: nat) {
    block in free && size <= free[block] && forall a :: a in free && size <= free[a] ==> block <= a
  }

  /** A block handed out: whole, or cut to size when enough is left over for a block of its own. */
  ghost predicate Handed(free: Blocks, live: Blocks, block: nat, size: nat, free': Blocks, live': Blocks) {
    && block in free && size <= free[block]
    && if free[block] - size > 2 * STRUCT_SIZE then
         && free' == (free - {block})[block + size := free[block] - size]
         && live' == live[block := size]
       else
         free' == free - {block} && live' == live[block := free[block]]
  }

  /** Free blocks are multiples of the alignment, so that rounding a size up changes nothing about which of them hold
      it. */
  lemma RoundedFits(free: Blocks, n: nat)
    requires Aligned(free)
    ensures forall a :: a in free ==> (n <= free[a] <==> RoundUp(n) <= free[a])
  {
    RoundUpIsNext(n);
    forall a | a in free && n <= free[a] < RoundUp(n)
      ensures false
    {
      AlignedDifference(RoundUp(n), free[a]);
      SmallRemainder(RoundUp(n) - free[a]);
    }
  }

  lemma SmallRemainder(d: nat)
    requires d % ALIGNMENT == 0 && d < ALIGNMENT
    ensures d == 0
  {
    DivisionUnique(d, ALIGNMENT, 0, d);
  }

  /** The caller's bytes lie in the block handed out for them and in no other, and the block is larger than that and its
      header need by no more than what is not worth cutting off. */
  lemma BytesServed(free: Blocks, live: Blocks, regions: seq<Region>, block: nat, n: nat, free': Blocks, live': Blocks)
    requires Layout(free, live, regions) && Layout(free', live', regions)
    requires Handed(free, live, block, RoundUp(STRUCT_SIZE + n), free', live')
    ensures block in free && block !in live && block in live' && live' == live[block := live'[block]]
    ensures STRUCT_SIZE + n <= live'[block] < STRUCT_SIZE + n + ALIGNMENT + 2 * STRUCT_SIZE
    ensures var size := RoundUp(STRUCT_SIZE + n);
            live'[block] == if free[block] > size + 2 * STRUCT_SIZE then size else free[block]
    ensures Alone(free', live', regions, block, STRUCT_SIZE + n)
  {
    RoundUpIsNext(STRUCT_SIZE + n);
    FreeBlockAlone(free, live, regions, block, 0);
    HandedWithin(free', live', regions, block, STRUCT_SIZE + n);
  }

  /** The first bytes of a live block are in one region and in no other block, live or free. */
  ghost predicate Alone(free: Blocks, live: Blocks, regions: seq<Region>, block: nat, n: nat) {
    && Within(regions, block, n)
    && (forall a :: a in live && a != block ==> a + live[a] <= block || block + n <= a)
    && (forall a :: a in free ==> a + free[a] <= block || block + n <= a)
  }

  lemma HandedWithin(free: Blocks, live: Blocks, regions: seq<Region>, block: nat, n: nat)
    requires Layout(free, live, regions) && block in live && n <= live[block]
    ensures Alone(free, live, regions, block, n)
  {
    var i :| 0 <= i < |regions| && regions[i].Holds(block, live[block]);
    assert regions[i].Holds(block, n);
  }

  /** What a block handed out takes from the total is what its header then says. */
  lemma HandedTotals(free: Blocks, live: Blocks, block: nat, size: nat, free': Blocks, live': Blocks)
    requires Handed(free, live, block, size, free', live')
    requires block + size !in free || size == free[block]
    ensures Sum(free) == Sum(free') + live'[block]
  {
    TakeSum(free, block);
    hide Sum;
    if free[block] - size > 2 * STRUCT_SIZE {
      SumAdded(free - {block}, block + size, free[block] - size);
    }
  }

  lemma HandedAligned(free: Blocks, live: Blocks, block: nat, size: nat, free': Blocks, live': Blocks)
    requires Handed(free, live, block, size, free', live')
    requires Aligned(free) && Aligned(live) && size % ALIGNMENT == 0
    ensures Aligned(free') && Aligned(live')
  {
    AlignedAt(free, block);
    AlignedSum(block, size);
    AlignedDifference(free[block], size);
  }

  /** `HeapRegion_t`, and the array `ucHeap` of heap_4.c. */
  datatype HeapRegion = HeapRegion(startAddress: nat, sizeInBytes: nat) {
    /** From the first aligned byte to the last place that holds an end marker. */
    function Extent(): Region {
      Region(RoundUp(startAddress),
             if STRUCT_SIZE <= startAddress + sizeInBytes then RoundDown(startAddress + sizeInBytes - STRUCT_SIZE)
                 else 0)
    }
  }

  /** A region loses less than the alignment at either end, besides the room for its end marker. */
  lemma ExtentIsLargest(r: HeapRegion)
    requires STRUCT_SIZE <= r.startAddress + r.sizeInBytes
    ensures var e, end := r.Extent(), r.startAddress + r.sizeInBytes;
            && r.startAddress <= e.base < r.startAddress + ALIGNMENT && e.base % ALIGNMENT == 0
            && e.limit + STRUCT_SIZE <= end < e.limit + STRUCT_SIZE + ALIGNMENT && e.limit % ALIGNMENT == 0
  {
    RoundUpIsNext(r.startAddress);
    RoundDownIsPrevious(r.startAddress + r.sizeInBytes - STRUCT_SIZE);
  }

  ghost function Extents(given: seq<HeapRegion>): (e: seq<Region>)
    ensures |e| == |given|
  {
    seq(|given|, i requires 0 <= i < |given| => given[i].Extent())
  }

  /** Disjoint memory areas in address order, each with room for a block after alignment, none of
      them near `xStart` or large enough to reach the top bit. */
  ghost predicate Usable(given: seq<HeapRegion>, xStart: nat) {
    && (forall i :: 0 <= i < |given| ==>
          && 0 < given[i].startAddress && STRUCT_SIZE <= given[i].startAddress + given[i].sizeInBytes
          && 0 < given[i].sizeInBytes < ALLOCATED_BIT
          && given[i].Extent().base + STRUCT_SIZE <= given[i].Extent().limit
          && (xStart < given[i].Extent().base || given[i].Extent().limit < xStart))
    && (forall i, j :: 0 <= i < j < |given| ==>
          given[i].startAddress + given[i].sizeInBytes <= given[j].startAddress)
  }

  ghost predicate Unowned(h: Headers) {
    forall a :: a in h ==> h[a].size < ALLOCATED_BIT
  }

  lemma StillUnowned(h: Headers, a: nat, link: BlockLink)
    requires Unowned(h) && (link.size < ALLOCATED_BIT || (a in h && link.size == h[a].size))
    ensures Unowned(h[a := link])
  {
  }

  lemma UsableRegions(given: seq<HeapRegion>, xStart: nat)
    requires Usable(given, xStart)
    ensures var e := Extents(given);
            && RegionsOK(e)
            && forall i :: 0 <= i < |e| ==>
                 && e[i].base % ALIGNMENT == 0 && e[i].limit % ALIGNMENT == 0
                 && e[i].limit - e[i].base < ALLOCATED_BIT && (xStart < e[i].base || e[i].limit < xStart)
  {
    forall i | 0 <= i < |given|
      ensures var e := Extents(given)[i];
              && given[i].startAddress <= e.base
              && e.limit + STRUCT_SIZE <= given[i].startAddress + given[i].sizeInBytes
              && e.base % ALIGNMENT == 0 && e.limit % ALIGNMENT == 0
    {
      RoundUpIsNext(given[i].startAddress);
      RoundDownIsPrevious(given[i].startAddress + given[i].sizeInBytes - STRUCT_SIZE);
    }
  }

  /** What adding the next region needs to know of those before it. */
  lemma RegionAdded(given: seq<HeapRegion>, k: nat, xStart: nat, free: Blocks)
    requires Usable(given, xStart) && k < |given| && IsInitial(free, Extents(given[..k])) && Aligned(free)
    ensures var r, before := given[k].Extent(), Extents(given[..k]);
            && STRUCT_SIZE <= given[k].startAddress + given[k].sizeInBytes
            && RoundUp(given[k].startAddress) <= given[k].startAddress + given[k].sizeInBytes
            && |before| == k && Extents(given[..k + 1]) == before + [r]
            && Marks(before + [r]) == Marks(before) + {r.limit}
            && 0 < r.base < r.limit && r.limit - r.base < ALLOCATED_BIT && r.base != xStart && r.limit != xStart
            && (k > 0 ==> 0 < before[k - 1].limit < r.base && before[k - 1].limit !in free) && r.base !in free
            && IsInitial(free[r.base := r.limit - r.base], before + [r]) && Aligned(free[r.base := r.limit - r.base])
  {
    hide Usable, Extents, RegionsOK, IsInitial, Marks;
    var r, before := given[k].Extent(), Extents(given[..k]);
    RegionFits(given, k, xStart);
    MarksAdd(before, r);
    InitialAdd(free, before, r);
  }

  lemma RegionFits(given: seq<HeapRegion>, k: nat, xStart: nat)
    requires Usable(given, xStart) && k < |given|
    ensures var r, before := given[k].Extent(), Extents(given[..k]);
            && |before| == k && Extents(given[..k + 1]) == before + [r] && RegionsOK(before + [r])
            && STRUCT_SIZE <= given[k].startAddress + given[k].sizeInBytes
            && RoundUp(given[k].startAddress) <= given[k].startAddress + given[k].sizeInBytes
            && 0 < r.base < r.limit && r.limit - r.base < ALLOCATED_BIT && r.base != xStart && r.limit != xStart
            && (k > 0 ==> 0 < before[k - 1].limit) && r.base % ALIGNMENT == 0 && (r.limit - r.base) % ALIGNMENT == 0
  {
    var r, all := given[k].Extent(), Extents(given);
    UsableRegions(given, xStart);
    hide RegionsOK;
    assert all[k] == r && STRUCT_SIZE <= given[k].startAddress + given[k].sizeInBytes;
    RegionsPrefix(all, k);
    hide Usable;
    assert Extents(given[..k]) == all[..k] && Extents(given[..k + 1]) == all[..k + 1] == all[..k] + [r];
    AlignedDifference(r.limit, r.base);
    RoundDownIsPrevious(given[k].startAddress + given[k].sizeInBytes - STRUCT_SIZE);
  }

  lemma NoMarks(regions: seq<Region>, limit: nat)
    requires regions == []
    ensures Marks(regions) + {limit} == {limit}
  {
  }

  lemma FirstChain(start: nat, base: nat, limit: nat, h: Headers)
    requires 0 < base < limit && start != base && start != limit
    requires h == map[start := BlockLink(base, 0)][limit := BlockLink(NULL, 0)][base := BlockLink(limit, limit - base)]
    ensures Chain([start] + [base, limit], h, map[base := limit - base], {limit}, start, limit)
  {
    var d, free := [start] + [base, limit], map[base := limit - base];
    assert d[0] == start && d[1] == base && d[2] == limit;
    forall a | a in free
      ensures exists i :: 1 <= i < |d| && d[i] == a
    {
      assert d[1] == a;
    }
  }

  class Heap {
    const xStart: nat
    var headers: Headers
    var pxEnd: nat
    var freeBytesRemaining: nat
    var minimumEverFreeBytesRemaining: nat

    ghost var regions: seq<Region>
    ghost var chain: seq<nat>
    ghost var free: Blocks
    ghost var live: Blocks

    ghost predicate Linked()
      reads this
    {
      Chain(chain, headers, free, Marks(regions), xStart, pxEnd)
    }

    /** xStart lies outside the regions; every region is addressable without the top bit. */
    ghost predicate Placed()
      reads `regions, `pxEnd
    {
      && RegionsOK(regions) && regions != [] && pxEnd == regions[|regions| - 1].limit
      && (forall i :: 0 <= i < |regions| ==> regions[i].limit - regions[i].base < ALLOCATED_BIT)
      && (forall i :: 0 <= i < |regions| ==> xStart < regions[i].base || regions[i].limit < xStart)
    }

    ghost predicate Valid()
      reads this
    {
      && Placed() && Layout(free, live, regions) && Linked() && Owned(headers, live)
      && Aligned(free) && Aligned(live)
      && freeBytesRemaining == Sum(free) && minimumEverFreeBytesRemaining <= freeBytesRemaining
    }

    /** Before the first region is defined. */
    ghost predicate Blank()
      reads this
    {
      pxEnd == NULL && regions == [] && chain == [] && free == map[] && live == map[] && headers == map[]
    }

    constructor (xStart: nat)
      ensures Blank() && this.xStart == xStart
    {
      this.xStart := xStart;
      pxEnd := NULL;
      headers := map[];
      regions, chain, free, live := [], [], map[], map[];
    }

    /** Live blocks are neither in the free list nor end markers. */
    lemma BlockBounds(a: nat)
      requires Placed() && Layout(free, live, regions) && Linked() && a in live
      ensures 0 < a && a != xStart && a < pxEnd && a !in Marks(regions) && a !in chain && 0 < live[a]
    {
      MarksNotFree();
      LiveWithin(a);
      InRegion(a, live[a]);
      ListedAre();
      hide Placed, Layout, Within, RegionsOK, Marks, Chain;
    }

    lemma ListedAre()
      requires Linked()
      ensures forall x :: x in chain ==> x == xStart || x in free || x in Marks(regions)
    {
      hide Marks, Ascending;
      forall x | x in chain
        ensures x == xStart || x in free || x in Marks(regions)
      {
        var i :| 0 <= i < |chain| && chain[i] == x;
        assert i > 0 ==> chain[i] in free || chain[i] in Marks(regions);
      }
    }

    lemma LiveWithin(a: nat)
      requires Layout(free, live, regions) && a in live
      ensures Within(regions, a, live[a]) && 0 < live[a]
    {
      hide Within, Covers, Coalesced, Apart;
    }

    lemma InRegion(a: nat, size: nat)
      requires Placed() && Within(regions, a, size) && 0 < size
      ensures 0 < a < pxEnd && a != xStart && size < ALLOCATED_BIT
    {
      var i :| 0 <= i < |regions| && regions[i].Holds(a, size);
      assert regions[i].limit <= regions[|regions| - 1].limit;
    }

    /** What the place of a live block in the free list says about the blocks that touch it. */
    lemma Neighbours(a: nat, i: nat)
      requires Placed() && Layout(free, live, regions) && Linked() && a in live
      requires i < |chain| - 1 && (i > 0 ==> chain[i] < a) && a <= chain[i + 1]
      ensures chain[i] in headers && chain[i + 1] in headers && chain[|chain| - 1] == pxEnd && pxEnd !in free
      ensures forall j :: 1 <= j < |chain| && chain[j] == chain[i + 1] ==> j == i + 1
      ensures IsFront(free, a, Gap(chain, free, a, live[a], i, pxEnd).p)
      ensures a + live[a] in free ==> a + live[a] == chain[i + 1]
      ensures a + live[a] <= chain[i + 1]
    {
      hide Placed, Layout;
      assert chain[i + 1] in free || chain[i + 1] in Marks(regions);
      assert i > 0 ==> chain[i] in free || chain[i] in Marks(regions);
      AfterLive(a, chain[i + 1]);
      MarksNotFree();
      hide Linked, Listed;
      forall b | b in free
        ensures b + free[b] == a ==> i > 0 && b == chain[i]
        ensures a < b ==> chain[i + 1] <= b
      {
        Around(a, i, b);
        if i > 0 && b < chain[i] {
          BeforeMark(b, chain[i]);
        }
      }
    }

    /** The free blocks before a place in the free list, and those after it. */
    lemma Around(a: nat, i: nat, b: nat)
      requires Linked() && i < |chain| - 1 && (i > 0 ==> chain[i] < a) && a <= chain[i + 1] && b in free
      ensures b < a ==> i > 0 && b <= chain[i]
      ensures a < b ==> chain[i + 1] <= b
    {
      var j :| 1 <= j < |chain| && chain[j] == b;
      assert j <= i || j >= i + 1;
    }

    lemma MarksNotFree()
      requires Placed() && Layout(free, live, regions)
      ensures forall x :: x in Marks(regions) ==> x !in free && x !in live
      ensures pxEnd in Marks(regions) && forall b :: b in free ==> 0 < free[b]
      ensures forall a :: a in live ==> a !in free && 0 < live[a]
    {
    }

    /** An end marker lies behind every block of its region. */
    lemma BeforeMark(b: nat, x: nat)
      requires Placed() && Layout(free, live, regions) && b in free && b < x && (x in free || x in Marks(regions))
      ensures b + free[b] <= x && 0 < free[b]
    {
      hide RegionsOK, Within, Marks, Covers, Coalesced, Apart;
      if x in Marks(regions) {
        BeforeLimit(regions, b, free[b], x);
      }
    }

    lemma AfterLive(a: nat, x: nat)
      requires Placed() && Layout(free, live, regions) && a in live && a <= x && (x in free || x in Marks(regions))
      ensures a + live[a] <= x && 0 < live[a] && a !in free
    {
      hide RegionsOK, Within, Marks, Covers, Coalesced;
      if x in Marks(regions) {
        BeforeLimit(regions, a, live[a], x);
      }
    }

    /** `prvInsertBlockIntoFreeList`. The block still counts as live on entry. */
    method InsertBlockIntoFreeList(blockToInsert: nat) returns (ghost p: nat)
      requires Placed() && Layout(free, live, regions) && Linked()
      requires blockToInsert in live && blockToInsert in headers && headers[blockToInsert].size == live[blockToInsert]
      modifies this`headers, this`chain, this`free, this`live
      ensures IsFront(old(free), blockToInsert, p)
      ensures free == Join(old(free), p, blockToInsert, old(live[blockToInsert]))
      ensures live == old(live) - {blockToInsert}
      ensures Layout(free, live, regions) && Linked()
      ensures OnlyTouched(old(headers), headers, Elements(old(chain)) + {blockToInsert})
    {
      hide Layout, RegionsOK, Chain, Replace, Merged, Gap, Join;
      ghost var a, size := blockToInsert, live[blockToInsert];
      BlockBounds(a);
      var it, i := InsertionPoint(blockToInsert);
      Neighbours(a, i);
      ghost var g := Gap(chain, free, a, size, i, pxEnd);
      p := g.p;
      MergeHeaders(it, blockToInsert, i, g);
      JoinKeepsLayout(free, live, regions, p, a);
      InsertedChain(chain, old(headers), free, Marks(regions), xStart, pxEnd, a, size, i, headers);
      Touched(old(headers), p, a, i, g);
      chain := Replace(chain, g.m, g.k, p);
      free := Join(free, p, a, size);
      live := live - {a};
    }

    lemma Touched(h: Headers, p: nat, a: nat, i: nat, g: Seam)
      requires Placed() && Layout(free, live, regions) && a in live
      requires Chain(chain, h, free, Marks(regions), xStart, pxEnd) && a in h && h[a].size == live[a]
      requires i < |chain| - 1 && g == Gap(chain, free, a, live[a], i, pxEnd) && g.k < |chain| && p == g.p
      requires IsFront(free, a, p) && Layout(Join(free, p, a, live[a]), live - {a}, regions)
      requires a + live[a] in free ==> a + live[a] == chain[i + 1]
      requires headers == Merged(h, chain, a, i, g) && a !in chain
      ensures OnlyTouched(h, headers, Elements(chain) + {a})
    {
      hide Placed, Layout, Merged, Join;
      MarksNotFree();
      SeamHeaders(chain, h, free, Marks(regions), xStart, pxEnd, a, live[a], i, headers);
      SmallBlock(Join(free, p, a, live[a]), live - {a}, p);
      SmallBlocks(h);
      MergedElsewhere(h, chain, a, i, g);
    }

    lemma SmallBlock(free': Blocks, live': Blocks, p: nat)
      requires Placed() && Layout(free', live', regions) && (p in free' || p in live')
      ensures p in free' ==> free'[p] < ALLOCATED_BIT
      ensures p in live' ==> live'[p] < ALLOCATED_BIT
    {
      if p in free' {
        InRegion(p, free'[p]);
      }
      if p in live' {
        InRegion(p, live'[p]);
      }
    }

    lemma SmallBlocks(h: Headers)
      requires Placed() && Layout(free, live, regions) && Chain(chain, h, free, Marks(regions), xStart, pxEnd)
      ensures forall x :: x in chain ==> x in h && h[x].size < ALLOCATED_BIT
      ensures forall x :: x in live ==> live[x] < ALLOCATED_BIT
    {
      hide Placed, Layout;
      forall x | x in free || x in live
        ensures (x in free ==> free[x] < ALLOCATED_BIT) && (x in live ==> live[x] < ALLOCATED_BIT)
      {
        SmallBlock(free, live, x);
      }
    }

    /** The loop of `prvInsertBlockIntoFreeList`: the last free block before the one to insert. */
    method InsertionPoint(block: nat) returns (it: nat, ghost i: nat)
      requires Linked() && block < pxEnd
      ensures i < |chain| - 1 && it == chain[i] && (i > 0 ==> it < block) && block <= chain[i + 1]
      ensures it in headers && (it == xStart || it < block) && block <= headers[it].next
    {
      it := xStart;
      i := 0;
      while headers[it].next < block
        invariant 0 <= i < |chain| - 1 && it == chain[i]
        invariant i > 0 ==> it < block
        decreases |chain| - i
      {
        it := headers[it].next;
        i := i + 1;
      }
    }

    /** The rest of `prvInsertBlockIntoFreeList`: merge with the block in front and the one behind. */
    method MergeHeaders(it: nat, blockToInsert: nat, ghost i: nat, ghost g: Seam)
      requires Linked() && i < |chain| - 1 && it == chain[i]
      requires blockToInsert in headers && blockToInsert !in chain && 0 < headers[blockToInsert].size
      requires g == Gap(chain, free, blockToInsert, headers[blockToInsert].size, i, pxEnd)
      modifies this`headers
      ensures headers == Merged(old(headers), chain, blockToInsert, i, g)
    {
      SeamFound(blockToInsert, i, g);
      hide Chain, Gap;
      var block := blockToInsert;
      if it + headers[it].size == block {
        headers := headers[it := BlockLink(headers[it].next, headers[it].size + headers[block].size)];
        block := it;
      }
      ghost var h := headers;
      LinkBehind(it, block);
      UpdateTwice(old(headers), block, h[block], headers[block]);
      UpdateApart(old(headers), block, headers[block], it, BlockLink(block, headers[it].size));
      if it != block {
        headers := headers[it := BlockLink(block, headers[it].size)];
      }
    }

    /** The branches that look at the block behind. */
    method LinkBehind(it: nat, block: nat)
      requires it in headers && block in headers && headers[it].next in headers && headers[it].next != block
           && headers[it].next != it
      modifies this`headers
      ensures var next, link := old(headers)[it].next, old(headers)[block];
              headers == old(headers)[block :=
                if block + link.size == next && next != pxEnd
                    then BlockLink(old(headers)[next].next, link.size + old(headers)[next].size)
                else BlockLink(next, link.size)]
    {
      if block + headers[block].size == headers[it].next {
        if headers[it].next != pxEnd {
          var next := headers[it].next;
          headers := headers[block := BlockLink(headers[next].next, headers[block].size + headers[next].size)];
        } else {
          headers := headers[block := BlockLink(pxEnd, headers[block].size)];
        }
      } else {
        headers := headers[block := BlockLink(headers[it].next, headers[block].size)];
      }
    }

    /** What the comparisons of addresses find out about the seam. */
    lemma SeamFound(block: nat, i: nat, g: Seam)
      requires Linked() && i < |chain| - 1 && block in headers && block !in chain && 0 < headers[block].size
      requires g == Gap(chain, free, block, headers[block].size, i, pxEnd)
      ensures var it, next := chain[i], chain[i + 1];
              && it in headers && headers[it].next == next && next in headers && it != block && next != block
              && it != next
              && g.p == (if it + headers[it].size == block then it else block)
              && g.k == (if block + headers[block].size == next && next != pxEnd then i + 2 else i + 1) < |chain|
              && (g.k == i + 2 ==> headers[next].next == chain[g.k])
    {
      assert chain[i] in headers && chain[i + 1] in headers && chain[i] in chain && chain[i + 1] in chain;
      assert headers[chain[i]].size == if i > 0 && chain[i] in free then free[chain[i]] else 0;
    }

    // ----- prvHeapInit and vPortDefineHeapRegions -----

    /** `prvHeapInit` of heap_4.c. */
    method HeapInit(ucHeap: HeapRegion)
      requires Blank() && Usable([ucHeap], xStart)
      modifies this
      ensures Valid() && regions == [ucHeap.Extent()] && IsInitial(free, regions) && live == map[]
      ensures minimumEverFreeBytesRemaining == freeBytesRemaining
    {
      hide IsInitial, Sum, Chain, Aligned, Layout;
      BlankDefined([ucHeap]);
      assert Extents([ucHeap]) == [ucHeap.Extent()] && [ucHeap][..1] == [ucHeap];
      var totalHeapSize := AddRegion(ucHeap, 0, [ucHeap]);
      Finish(totalHeapSize, [ucHeap]);
    }

    /** `vPortDefineHeapRegions`: the regions up to the entry of size zero. */
    method DefineHeapRegions(heapRegions: seq<HeapRegion>, ghost n: nat)
      requires Blank() && 0 < n < |heapRegions| && heapRegions[n].sizeInBytes == 0
      requires Usable(heapRegions[..n], xStart)
      modifies this
      ensures Valid() && regions == Extents(heapRegions[..n]) && IsInitial(free, regions) && live == map[]
      ensures minimumEverFreeBytesRemaining == freeBytesRemaining
    {
      hide IsInitial, Sum, Extents, Chain, Aligned, Layout;
      ghost var given := heapRegions[..n];
      BlankDefined(given);
      var totalHeapSize, definedRegions := 0, 0;
      while heapRegions[definedRegions].sizeInBytes > 0
        invariant definedRegions <= n
        invariant Defined(given, definedRegions) && totalHeapSize == Sum(free)
        decreases n - definedRegions
      {
        var added := AddRegion(heapRegions[definedRegions], definedRegions, given);
        totalHeapSize := totalHeapSize + added;
        definedRegions := definedRegions + 1;
      }
      assert given[..n] == given;
      Finish(totalHeapSize, given);
    }

    /** The state between two trips round that loop: the first `k` regions are in the heap. */
    ghost predicate Defined(given: seq<HeapRegion>, k: nat)
      reads this
    {
      && k <= |given| && regions == Extents(given[..k]) && IsInitial(free, regions)
      && live == map[] && Aligned(free) && Unowned(headers)
      && if k == 0 then Blank() else Linked() && pxEnd == regions[k - 1].limit
    }

    /** One trip round that loop, and what `prvHeapInit` does for its only region. */
    method AddRegion(heapRegion: HeapRegion, definedRegions: nat, ghost given: seq<HeapRegion>) returns (added: nat)
      requires Usable(given, xStart) && Defined(given, definedRegions)
      requires definedRegions < |given| && heapRegion == given[definedRegions]
      modifies this
      ensures Defined(given, definedRegions + 1) && Sum(free) == old(Sum(free)) + added
    {
      hide Usable, IsInitial, Chain, RegionsOK, Aligned, Sum, Extents, Marks, Unowned;
      RegionAdded(given, definedRegions, xStart, free);
      var alignedHeap, address := Bounds(heapRegion);
      if definedRegions > 0 {
        ListEnd();
      }
      if definedRegions == 0 {
        StillUnowned(headers, xStart, BlockLink(alignedHeap, 0));
        headers := headers[xStart := BlockLink(alignedHeap, 0)];
      }
      StillUnowned(headers, address, BlockLink(NULL, 0));
      var previousFreeBlock := pxEnd;
      pxEnd := address;
      headers := headers[pxEnd := BlockLink(NULL, 0)];
      StillUnowned(headers, alignedHeap, BlockLink(pxEnd, address - alignedHeap));
      headers := headers[alignedHeap := BlockLink(pxEnd, address - alignedHeap)];
      ghost var c := (if definedRegions == 0 then [xStart] else chain) + [alignedHeap, address];
      if previousFreeBlock != NULL {
        StillUnowned(headers, previousFreeBlock, BlockLink(alignedHeap, headers[previousFreeBlock].size));
        headers := headers[previousFreeBlock := BlockLink(alignedHeap, headers[previousFreeBlock].size)];
        ChainAppend(chain, old(headers), free, Marks(regions), xStart, previousFreeBlock, alignedHeap, address, c,
            headers);
      } else {
        FirstChain(xStart, alignedHeap, address, headers);
        NoMarks(regions, address);
        assert free[alignedHeap := address - alignedHeap] == map[alignedHeap := address - alignedHeap];
      }
      added := address - alignedHeap;
      SumAdded(free, alignedHeap, added);
      chain := c;
      free := free[alignedHeap := added];
      regions := regions + [heapRegion.Extent()];
    }

    lemma BlankDefined(given: seq<HeapRegion>)
      requires Blank()
      ensures Defined(given, 0) && Sum(free) == 0
    {
    }

    lemma ListEnd()
      requires Linked()
      ensures pxEnd in headers && pxEnd in Marks(regions)
    {
    }

    /** The aligned start of a region and the place of its end marker. */
    method Bounds(heapRegion: HeapRegion) returns (alignedHeap: nat, end: nat)
      requires STRUCT_SIZE <= heapRegion.startAddress + heapRegion.sizeInBytes
      requires RoundUp(heapRegion.startAddress) <= heapRegion.startAddress + heapRegion.sizeInBytes
      ensures heapRegion.Extent() == Region(alignedHeap, end)
    {
      var totalRegionSize, address := heapRegion.sizeInBytes, heapRegion.startAddress;
      if address % ALIGNMENT != 0 {
        RoundDownIsPrevious(address);
        address := RoundDown(address + (ALIGNMENT - 1));
        totalRegionSize := totalRegionSize - (address - heapRegion.startAddress);
      }
      alignedHeap := address;
      end := RoundDown(alignedHeap + totalRegionSize - STRUCT_SIZE);
    }

    method Finish(totalHeapSize: nat, ghost given: seq<HeapRegion>)
      requires given != [] && Usable(given, xStart) && Defined(given, |given|) && totalHeapSize == Sum(free)
      modifies this`freeBytesRemaining, this`minimumEverFreeBytesRemaining
      ensures Valid() && minimumEverFreeBytesRemaining == freeBytesRemaining
    {
      hide Usable, Placed, Layout, IsInitial, Chain, Owned;
      AllDefined(given);
      minimumEverFreeBytesRemaining := totalHeapSize;
      freeBytesRemaining := totalHeapSize;
    }

    lemma AllDefined(given: seq<HeapRegion>)
      requires given != [] && Usable(given, xStart) && Defined(given, |given|)
      ensures Placed() && Layout(free, live, regions) && Owned(headers, live)
    {
      hide Extents, Usable, RegionsOK, IsInitial, Chain, Layout;
      assert given[..|given|] == given;
      UsableRegions(given, xStart);
      InitialLayout(free, regions);
    }

    // ----- pvPortMalloc -----

    /** `pvPortMalloc` of heap_5.c, and that of heap_4.c once the heap is set up. It serves a request
        exactly when some free block is large enough for it, and then from the lowest such block. */
    method Malloc(wantedSize: nat) returns (pv: nat)
      requires Valid()
      modifies this
      ensures Valid() && regions == old(regions) && pxEnd == old(pxEnd)
      ensures pv != NULL <==>
                0 < wantedSize < ALLOCATED_BIT && exists a :: a in old(free) && wantedSize + STRUCT_SIZE <= old(free)[a]
      ensures pv == NULL ==> free == old(free) && live == old(live) && headers == old(headers)
      ensures pv == NULL ==> minimumEverFreeBytesRemaining == old(minimumEverFreeBytesRemaining)
      ensures pv % ALIGNMENT == 0
      ensures pv != NULL ==>
                && STRUCT_SIZE < pv && FirstFit(old(free), pv - STRUCT_SIZE, wantedSize + STRUCT_SIZE)
                && Handed(old(free), old(live), pv - STRUCT_SIZE, RoundUp(wantedSize + STRUCT_SIZE), free, live)
                && minimumEverFreeBytesRemaining == Min(old(minimumEverFreeBytesRemaining), freeBytesRemaining)
      ensures pv != NULL ==> Served(old(live), pv, wantedSize)
      ensures pv != NULL ==>
                var block, size := pv - STRUCT_SIZE, RoundUp(wantedSize + STRUCT_SIZE);
                && block in old(free) && block in live
                && live[block] == if old(free)[block] > size + 2 * STRUCT_SIZE then size else old(free)[block]
    {
      hide Placed, Layout, Chain, Aligned, Owned, Handed, Sum, RoundUp, Alone;
      pv := NULL;
      DivisionUnique(0, ALIGNMENT, 0, 0);
      var wanted := wantedSize;
      if wanted < ALLOCATED_BIT {
        if wanted > 0 {
          wanted := wanted + STRUCT_SIZE;
          if wanted % ALIGNMENT != 0 {
            wanted := wanted + (ALIGNMENT - wanted % ALIGNMENT);
          }
          RoundUpIsNext(wantedSize + STRUCT_SIZE);
          RoundUpBranches(wantedSize + STRUCT_SIZE);
          RoundedFits(free, wantedSize + STRUCT_SIZE);
        }
        if wanted > 0 && wanted <= freeBytesRemaining {
          var previous, block, k := Search(wanted);
          if block != pxEnd {
            pv := headers[previous].next + STRUCT_SIZE;
            AlignedAt(free, block);
            AlignedSum(block, STRUCT_SIZE);
            Allocate(previous, block, wanted, k);
            BytesServed(old(free), old(live), regions, block, wantedSize, free, live);
          }
        }
        NoneFits(old(free), wanted);
      }
    }

    /** The bytes at `pv` are in a block that was not live before, large enough and not much larger, and in no other;
        the live blocks are otherwise the same. */
    ghost predicate Served(before: Blocks, pv: nat, wantedSize: nat)
      reads this
    {
      STRUCT_SIZE < pv &&
      var block := pv - STRUCT_SIZE;
      && block !in before && block in live && live == before[block := live[block]]
      && STRUCT_SIZE + wantedSize <= live[block] < STRUCT_SIZE + wantedSize + ALIGNMENT + 2 * STRUCT_SIZE
      && Alone(free, live, regions, block, STRUCT_SIZE + wantedSize)
    }

    /** `pvPortMalloc` of heap_4.c, which sets the heap up on the first call. */
    method MallocWithInit(ucHeap: HeapRegion, wantedSize: nat) returns (pv: nat)
      requires if pxEnd == NULL then Blank() && Usable([ucHeap], xStart) else Valid()
      modifies this
      ensures Valid() && (pv != NULL ==> STRUCT_SIZE < pv) && pv % ALIGNMENT == 0
      ensures old(pxEnd) == NULL ==>
                && regions == [ucHeap.Extent()]
                && (pv != NULL <==>
                     0 < wantedSize < ALLOCATED_BIT && wantedSize + STRUCT_SIZE <= regions[0].limit - regions[0].base)
                && (pv != NULL ==> pv == regions[0].base + STRUCT_SIZE)
      ensures old(pxEnd) != NULL ==>
                && regions == old(regions)
                && (pv != NULL <==>
                     0 < wantedSize < ALLOCATED_BIT
                       && exists a :: a in old(free) && wantedSize + STRUCT_SIZE <= old(free)[a])
                && (pv != NULL ==>
                     Handed(old(free), old(live), pv - STRUCT_SIZE, RoundUp(wantedSize + STRUCT_SIZE), free, live))
      ensures pv != NULL ==> Served(if old(pxEnd) == NULL then map[] else old(live), pv, wantedSize)
    {
      hide Placed, Layout, Chain, Aligned, Owned, Handed, Sum, Usable, RoundUp, Alone;
      if pxEnd == NULL {
        HeapInit(ucHeap);
        OneBlock(free, regions);
        pv := Malloc(wantedSize);
      } else {
        pv := Malloc(wantedSize);
      }
    }

    /** The search loop of `pvPortMalloc`. */
    method Search(wanted: nat) returns (previous: nat, block: nat, ghost k: nat)
      requires Linked() && Placed() && Layout(free, live, regions) && 0 < wanted
      ensures block == pxEnd <==> forall a :: a in free ==> free[a] < wanted
      ensures block != pxEnd ==> 1 <= k < |chain| - 1 && FirstFit(free, block, wanted)
      ensures block != pxEnd ==> previous == chain[k - 1] && block == chain[k]
      ensures previous in headers && headers[previous].next == block && 0 < block
    {
      hide Placed, Layout, Chain, FirstFit;
      MarksNotFree();
      previous := xStart;
      LinkAt(1);
      block := headers[xStart].next;
      k := 1;
      while headers[block].size < wanted && headers[block].next != NULL
        invariant 1 <= k < |chain| && previous == chain[k - 1] && block == chain[k]
        invariant previous in headers && headers[previous].next == block && block in headers && 0 < block
        invariant forall j :: 1 <= j < k && chain[j] in free ==> free[chain[j]] < wanted
        decreases |chain| - k
      {
        LinkAt(k);
        previous := block;
        block := headers[block].next;
        k := k + 1;
        LinkAt(k);
      }
      Found(wanted, k);
    }

    lemma LinkAt(k: nat)
      requires Linked() && 1 <= k
      ensures 2 <= |chain| && chain[0] == xStart
      ensures k < |chain| ==>
                && 0 < chain[k] && chain[k] in headers && chain[k - 1] in headers
                && headers[chain[k - 1]].next == chain[k]
                && (if k < |chain| - 1 then headers[chain[k]].next == chain[k + 1] else headers[chain[k]].next == NULL)
                && (chain[k] in free ==> headers[chain[k]].size == free[chain[k]])
    {
    }

    lemma Found(wanted: nat, k: nat)
      requires Linked() && 0 < wanted && 1 <= k < |chain| && pxEnd !in free
      requires forall j :: 1 <= j < k && chain[j] in free ==> free[chain[j]] < wanted
      requires headers[chain[k]].size >= wanted || headers[chain[k]].next == NULL
      ensures chain[k] == pxEnd <==> forall a :: a in free ==> free[a] < wanted
      ensures chain[k] != pxEnd ==> k < |chain| - 1 && FirstFit(free, chain[k], wanted)
    {
      assert k < |chain| - 1 ==> headers[chain[k]].next == chain[k + 1];
      forall a | a in free
        ensures free[a] < wanted || chain[k] <= a
      {
        var j :| 1 <= j < |chain| && chain[j] == a;
      }
    }

    /** What `pvPortMalloc` does once it has found a block. */
    method Allocate(previous: nat, block: nat, wanted: nat, ghost k: nat)
      requires Valid() && STRUCT_SIZE <= wanted && wanted % ALIGNMENT == 0
      requires 1 <= k < |chain| - 1 && previous == chain[k - 1] && block == chain[k]
      requires block in free && wanted <= free[block]
      modifies this
      ensures Valid() && regions == old(regions) && pxEnd == old(pxEnd)
      ensures Handed(old(free), old(live), block, wanted, free, live)
      ensures minimumEverFreeBytesRemaining == Min(old(minimumEverFreeBytesRemaining), freeBytesRemaining)
    {
      hide Placed, Layout, Chain, Aligned, Owned, OnlyTouched, Sum, Handed;
      ghost var t := Carve(previous, block, wanted, k);
      HandedTotals(old(free), old(live), block, wanted, free, live);
      HandedAligned(old(free), old(live), block, wanted, free, live);
      freeBytesRemaining := freeBytesRemaining - headers[block].size;
      if freeBytesRemaining < minimumEverFreeBytesRemaining {
        minimumEverFreeBytesRemaining := freeBytesRemaining;
      }
      OwnedHanded(old(headers), old(live), t, block, headers);
      BlockBounds(block);
      ghost var h := headers;
      headers := headers[block := BlockLink(NULL, headers[block].size + ALLOCATED_BIT)];
      ChainFrame(chain, h, headers, free, Marks(regions), xStart, pxEnd);
    }

    /** The block found is taken off the free list, and cut to size if enough is left over. */
    method Carve(previous: nat, block: nat, wanted: nat, ghost k: nat) returns (ghost t: set<nat>)
      requires Placed() && Layout(free, live, regions) && Linked() && STRUCT_SIZE <= wanted
      requires 1 <= k < |chain| - 1 && previous == chain[k - 1] && block == chain[k]
      requires block in free && wanted <= free[block]
      modifies this`headers, this`chain, this`free, this`live
      ensures Layout(free, live, regions) && Linked()
      ensures Handed(old(free), old(live), block, wanted, free, live)
           && (block + wanted !in old(free) || wanted == old(free)[block])
      ensures block in live && block in headers && headers[block].size == live[block]
           && live == old(live)[block := live[block]]
      ensures OnlyTouched(old(headers), headers, t) && block in t && forall x :: x in old(live) ==> x !in t
    {
      hide Placed, Layout, Chain, OnlyTouched, Elements;
      FreeBlockAlone(free, live, regions, block, wanted);
      LiveNotListed();
      TakeFromList(previous, block, k);
      t := Elements(old(chain));
      if headers[block].size - wanted > 2 * STRUCT_SIZE {
        ghost var h, t' := headers, Elements(chain) + {block, block + wanted};
        SplitBlock(block, wanted);
        TouchedTwice(old(headers), t, h, t', headers);
        t := t + t';
      }
    }

    /** A block leaves the free list; the application's it is only once its header says so. */
    method TakeFromList(previous: nat, block: nat, ghost k: nat)
      requires Placed() && Layout(free, live, regions) && Linked()
      requires 1 <= k < |chain| - 1 && previous == chain[k - 1] && block == chain[k] && block in free
      modifies this`headers, this`chain, this`free, this`live
      ensures Layout(free, live, regions) && Linked()
      ensures free == old(free) - {block} && live == old(live)[block := old(free)[block]]
      ensures block in headers && headers[block].size == old(free)[block]
      ensures OnlyTouched(old(headers), headers, Elements(old(chain)))
      ensures Elements(chain) <= Elements(old(chain)) && block in Elements(old(chain))
    {
      hide Placed, Layout, Chain, IsRemove;
      MarksNotFree();
      SmallBlocks(headers);
      ListedAt(k);
      TakeKeepsLayout(free, live, regions, block);
      headers := headers[previous := BlockLink(headers[block].next, headers[previous].size)];
      ghost var rest := Unlist(chain, k);
      ChainRemove(chain, old(headers), free, Marks(regions), xStart, pxEnd, k, rest, headers);
      chain := rest;
      free := free - {block};
      live := live[block := old(free)[block]];
    }

    lemma ListedAt(k: nat)
      requires Linked() && 1 <= k < |chain| && chain[k] in free
      ensures chain[k - 1] in headers && chain[k] in headers && headers[chain[k - 1]].next == chain[k]
      ensures headers[chain[k]].size == free[chain[k]]
    {
    }

    /** The end of a block that is larger than required goes back to the free list. */
    method SplitBlock(block: nat, wanted: nat)
      requires Placed() && Layout(free, live, regions) && Linked()
      requires block in live && block in headers && headers[block].size == live[block]
      requires STRUCT_SIZE <= wanted && wanted + 2 * STRUCT_SIZE < live[block]
      requires block + live[block] !in free
      modifies this`headers, this`chain, this`free, this`live
      ensures Layout(free, live, regions) && Linked()
      ensures live == old(live)[block := wanted]
      ensures free == old(free)[block + wanted := old(live)[block] - wanted]
      ensures block in headers && headers[block].size == wanted
      ensures OnlyTouched(old(headers), headers, Elements(old(chain)) + {block, block + wanted})
    {
      hide Placed, Layout, Chain, Elements, Cut, Join, OnlyTouched;
      CutBlock(block, wanted);
      ghost var h := headers;
      ghost var p := InsertBlockIntoFreeList(block + wanted);
      JoinCutEnd(old(free), old(live), regions, block, wanted, p);
      LiveBlockAlone(old(free), old(live), regions, block, wanted);
      SplitTouched(old(headers), h, headers, old(chain), block, wanted, old(live)[block]);
    }

    /** A block outside the free list becomes two. */
    method CutBlock(block: nat, wanted: nat)
      requires Placed() && Layout(free, live, regions) && Linked()
      requires block in live && block in headers && headers[block].size == live[block]
      requires STRUCT_SIZE <= wanted && wanted + 2 * STRUCT_SIZE < live[block]
      modifies this`headers, this`live
      ensures Layout(free, live, regions) && Linked() && live == Cut(old(live), block, wanted)
      ensures IsCut(old(headers), headers, block, wanted, old(live)[block])
      ensures block !in chain && block + wanted !in chain
      ensures block in live && block + wanted in live
           && live[block + wanted] == old(live)[block] - wanted < ALLOCATED_BIT && wanted < ALLOCATED_BIT
    {
      hide Placed, Layout, Chain;
      var newBlock := block + wanted;
      SmallBlock(free, live, block);
      CutKeepsLayout(free, live, regions, block, wanted);
      live := Cut(live, block, wanted);
      LiveNotListed();
      headers := headers[newBlock := BlockLink(if newBlock in headers then headers[newBlock].next else NULL,
                                               headers[block].size - wanted)];
      headers := headers[block := BlockLink(headers[block].next, wanted)];
      ChainFrame(chain, old(headers), headers, free, Marks(regions), xStart, pxEnd);
    }

    // ----- vPortFree -----

    /** `vPortFree`. Giving back an address that is not a live block changes nothing. */
    method Free(pv: nat)
      requires Valid() && (pv != NULL ==> STRUCT_SIZE <= pv && pv - STRUCT_SIZE in headers)
      modifies this
      ensures Valid() && regions == old(regions) && pxEnd == old(pxEnd)
      ensures live == if pv == NULL then old(live) else old(live) - {pv - STRUCT_SIZE}
      ensures live == old(live) ==> free == old(free) && headers == old(headers)
      ensures minimumEverFreeBytesRemaining == old(minimumEverFreeBytesRemaining)
    {
      hide Placed, Layout, Chain, Aligned;
      if pv != NULL {
        var link := pv - STRUCT_SIZE;
        if headers[link].size >= ALLOCATED_BIT {
          if headers[link].next == NULL {
            Release(link);
          }
        }
      }
    }

    /** The part of `vPortFree` inside the checks. */
    method Release(link: nat)
      requires Valid() && link in live
      modifies this
      ensures Valid() && regions == old(regions) && pxEnd == old(pxEnd)
      ensures live == old(live) - {link}
      ensures minimumEverFreeBytesRemaining == old(minimumEverFreeBytesRemaining)
    {
      hide Placed, Layout, Chain, Join, Sum, Aligned, IsFront, Owned, OnlyTouched;
      ghost var size := live[link];
      OwnedAt(headers, live, link);
      MarksNotFree();
      LiveNotListed();
      headers := headers[link := BlockLink(headers[link].next, headers[link].size - ALLOCATED_BIT)];
      ChainFrame(chain, old(headers), headers, free, Marks(regions), xStart, pxEnd);
      freeBytesRemaining := freeBytesRemaining + headers[link].size;
      ghost var p := InsertBlockIntoFreeList(link);
      JoinSum(old(free), p, link, size);
      AlignedAt(old(live), link);
      JoinAligned(old(free), p, link, size);
      OwnedReleased(old(headers), old(live), Elements(old(chain)) + {link}, link, headers);
    }

    lemma LiveNotListed()
      requires Placed() && Layout(free, live, regions) && Linked()
      ensures forall a :: a in live ==> a !in chain && a !in Elements(chain)
    {
      forall a | a in live
        ensures a !in chain
      {
        BlockBounds(a);
      }
    }
  }

  ghost predicate IsRemove(c: seq<nat>, k: nat, d: seq<nat>) {
    && k < |c| && |d| == |c| - 1
    && (forall i {:trigger d[i]} :: 0 <= i < k ==> d[i] == c[i])
    && (forall i {:trigger d[i]} :: k <= i < |d| ==> d[i] == c[i + 1])
  }

  lemma Unlist(c: seq<nat>, k: nat) returns (d: seq<nat>)
    requires k < |c|
    ensures IsRemove(c, k, d) && Elements(d) <= Elements(c)
  {
    d := c[..k] + c[k + 1..];
  }

  /** A free block taken out of the list. */
  lemma ChainRemove(c: seq<nat>, h: Headers, free: Blocks, marks: set<nat>, start: nat, end: nat,
                    k: nat, d: seq<nat>, h': Headers)
    requires Chain(c, h, free, marks, start, end) && 1 <= k < |c| - 1 && c[k] in free && end !in free
    requires IsRemove(c, k, d) && h' == h[c[k - 1] := BlockLink(h[c[k]].next, h[c[k - 1]].size)]
    ensures Chain(d, h', free - {c[k]}, marks, start, end)
  {
    RemovePath(c, h, k, d, h', start);
    RemoveListed(c, h, free, marks, k, d, h');
    hide Path, Listed;
    assert d[0] == c[0] && d[|d| - 1] == c[|c| - 1];
  }

  lemma RemovePath(c: seq<nat>, h: Headers, k: nat, d: seq<nat>, h': Headers, start: nat)
    requires Path(c, h) && Ascending(c, start) && c != [] && c[0] == start && 1 <= k < |c| - 1 && IsRemove(c, k, d)
    requires h' == h[c[k - 1] := BlockLink(h[c[k]].next, h[c[k - 1]].size)]
    ensures Path(d, h')
  {
    forall i | 0 <= i < |d|
      ensures d[i] in h' && (i < |d| - 1 ==> h'[d[i]].next == d[i + 1])
    {
      var j := if i < k then i else i + 1;
      assert d[i] == c[j] && c[j] in h;
      assert h[c[j]] == h[d[i]];
    }
  }

  lemma RemoveListed(c: seq<nat>, h: Headers, free: Blocks, marks: set<nat>, k: nat, d: seq<nat>, h': Headers)
    requires Path(c, h) && Path(d, h') && Listed(c, h, free, marks) && 1 <= k < |c| && IsRemove(c, k, d)
    requires h' == h[c[k - 1] := BlockLink(h[c[k]].next, h[c[k - 1]].size)]
    requires forall i, j :: 1 <= i < j < |c| ==> c[i] < c[j]
    ensures Listed(d, h', free - {c[k]}, marks)
  {
    forall i | 1 <= i < |d|
      ensures if d[i] in free - {c[k]} then h'[d[i]].size == free[d[i]] else d[i] in marks && h'[d[i]].size == 0
    {
      RemainsListed(c, h, free, marks, k, if i < k then i else i + 1);
    }
    RemoveComplete(c, free, k, d);
    hide Path, IsRemove;
  }

  lemma RemainsListed(c: seq<nat>, h: Headers, free: Blocks, marks: set<nat>, k: nat, j: nat)
    requires Path(c, h) && Listed(c, h, free, marks) && 1 <= k < |c| && 1 <= j < |c| && j != k
    requires forall i, j :: 1 <= i < j < |c| ==> c[i] < c[j]
    ensures c[j] in h && c[j] != c[k] && if c[j] in free then h[c[j]].size == free[c[j]]
              else c[j] in marks && h[c[j]].size == 0
  {
  }

  lemma RemoveComplete(c: seq<nat>, free: Blocks, k: nat, d: seq<nat>)
    requires IsRemove(c, k, d) && 1 <= k && forall a :: a in free ==> exists i :: 1 <= i < |c| && c[i] == a
    ensures forall a :: a in free - {c[k]} ==> exists i :: 1 <= i < |d| && d[i] == a
  {
    forall a | a in free - {c[k]}
      ensures exists i :: 1 <= i < |d| && d[i] == a
    {
      var j :| 1 <= j < |c| && c[j] == a;
      assert d[if j < k then j else j - 1] == a;
    }
  }

  lemma ChainFrame(c: seq<nat>, h: Headers, h': Headers, free: Blocks, marks: set<nat>, start: nat, end: nat)
    requires Chain(c, h, free, marks, start, end)
    requires forall x :: x in h && x in c ==> x in h' && h'[x] == h[x]
    ensures Chain(c, h', free, marks, start, end)
  {
  }

  // ----- What the layout fixes -----

  /** Giving back what was just handed out restores the free blocks exactly. */
  lemma RoundTrip(free: Blocks, live: Blocks, regions: seq<Region>, block: nat, size: nat, free': Blocks, live': Blocks,
                  free'': Blocks)
    requires Layout(free, live, regions) && Handed(free, live, block, size, free', live')
    requires Layout(free'', live' - {block}, regions)
    ensures free'' == free
  {
    FreeBlockAlone(free, live, regions, block, 0);
    hide Layout;
    assert live' - {block} == live;
    Canonical(free, free'', live, regions);
  }

  /** When nothing is live, whatever the order in which blocks were given back, every region is one
      free block again. */
  lemma AllFreed(free: Blocks, regions: seq<Region>, initial: Blocks)
    requires RegionsOK(regions) && IsInitial(initial, regions) && Layout(free, map[], regions)
    ensures free == initial
  {
    InitialLayout(initial, regions);
    hide Layout;
    Canonical(free, initial, map[], regions);
  }

  /** A request fits in some free block exactly when it fits in some gap between live blocks. */
  lemma FitsInGap(free: Blocks, live: Blocks, regions: seq<Region>, n: nat)
    requires Layout(free, live, regions)
    ensures (exists a :: a in free && n <= free[a])
       <==> (exists a, size :: MaximalGap(live, regions, a, size) && n <= size)
  {
    hide Layout, MaximalGap;
    if a :| a in free && n <= free[a] {
      FreeIsGap(free, live, regions, a);
    }
    if a, size :| MaximalGap(live, regions, a, size) && n <= size {
      GapIsFree(free, live, regions, a, size);
    }
  }

  /** No block spans two regions, though the end markers between them may have left the list. */
  lemma InOneRegion(free: Blocks, live: Blocks, regions: seq<Region>, a: nat)
    requires RegionsOK(regions) && Layout(free, live, regions) && (a in free || a in live)
    ensures var size := if a in free then free[a] else live[a];
            exists i :: 0 <= i < |regions| && regions[i].Holds(a, size) &&
                        forall j :: 0 <= j < |regions| && j != i ==> a + size < regions[j].base || regions[j].limit < a
  {
    var size := if a in free then free[a] else live[a];
    var i :| 0 <= i < |regions| && regions[i].Holds(a, size);
    forall j | 0 <= j < |regions| && j != i
      ensures a + size < regions[j].base || regions[j].limit < a
    {
      assert regions[i].limit + STRUCT_SIZE <= regions[j].base || regions[j].limit + STRUCT_SIZE <= regions[i].base;
    }
  }

  /** In a heap of one region the whole list, and not only its blocks, is fixed by the free blocks. */
  lemma ListFixed(c: seq<nat>, c': seq<nat>, h: Headers, h': Headers, free: Blocks, start: nat, end: nat)
    requires Chain(c, h, free, {end}, start, end) && Chain(c', h', free, {end}, start, end) && end !in free
    ensures c == c'
  {
    hide Chain, Path, Listed;
    ChainElements(c, h, free, start, end);
    ChainElements(c', h', free, start, end);
    SameAscending(c[1..], c'[1..]);
    assert c == [c[0]] + c[1..] && c' == [c'[0]] + c'[1..];
  }

  lemma ChainElements(c: seq<nat>, h: Headers, free: Blocks, start: nat, end: nat)
    requires Chain(c, h, free, {end}, start, end)
    ensures c != [] && c[0] == start && (forall i, j :: 0 <= i < j < |c[1..]| ==> c[1..][i] < c[1..][j])
    ensures forall x :: x in c[1..] <==> x in free || x == end
  {
    forall x | x in free || x == end
      ensures x in c[1..]
    {
      var i :| 1 <= i < |c| && c[i] == x;
      assert c[1..][i - 1] == x;
    }
  }

  lemma {:induction false} SameAscending(c: seq<nat>, d: seq<nat>)
    requires forall i, j :: 0 <= i < j < |c| ==> c[i] < c[j]
    requires forall i, j :: 0 <= i < j < |d| ==> d[i] < d[j]
    requires forall x :: x in c <==> x in d
    ensures c == d
  {
    assert c != [] ==> c[0] in c;
    assert d != [] ==> d[0] in d;
    if c != [] && d != [] {
      assert c[0] in d && d[0] in c;
      forall x
        ensures x in c[1..] <==> x in d[1..]
      {
        assert x in c[1..] <==> x in c && x != c[0] by {
          assert c == [c[0]] + c[1..];
        }
        assert x in d[1..] <==> x in d && x != d[0] by {
          assert d == [d[0]] + d[1..];
        }
      }
      SameAscending(c[1..], d[1..]);
      assert c == [c[0]] + c[1..] && d == [d[0]] + d[1..];
    }
  }

  /** Where in the list a block ends up: at `p`, in place of the elements from `m` up to `k`. */
  datatype Seam = Seam(p: nat, m: nat, k: nat)

  ghost function Gap(c: seq<nat>, free: Blocks, a: nat, size: nat, i: nat, end: nat): (g: Seam)
    requires i < |c| - 1 && c[|c| - 1] == end
    ensures 1 <= g.m <= g.k < |c| && (g.p == a || g.p == c[i])
  {
    var front := i > 0 && c[i] in free && c[i] + free[c[i]] == a;
    var drop := c[i + 1] == a + size && c[i + 1] != end;
    Seam(if front then c[i] else a, if front then i else i + 1, if drop then i + 2 else i + 1)
  }

  /** The headers once the block is in the list, with the sizes of the blocks it absorbs added. */
  ghost function Merged(h: Headers, c: seq<nat>, a: nat, i: nat, g: Seam): Headers
    requires i < |c| - 1 && g.k < |c| && c[i] in h && c[i + 1] in h && a in h
  {
    var size := h[a].size + (if g.p != a then h[c[i]].size else 0) + (if g.k == i + 2 then h[c[i + 1]].size else 0);
    (if g.p != a then h else h[c[i] := BlockLink(a, h[c[i]].size)])[g.p := BlockLink(c[g.k], size)]
  }

  lemma UpdateTwice(h: Headers, x: nat, a: BlockLink, b: BlockLink)
    ensures h[x := a][x := b] == h[x := b]
  {
  }

  lemma UpdateApart(h: Headers, x: nat, a: BlockLink, y: nat, b: BlockLink)
    ensures x != y ==> h[x := a][y := b] == h[y := b][x := a]
  {
  }

  lemma MergedElsewhere(h: Headers, c: seq<nat>, a: nat, i: nat, g: Seam)
    requires i < |c| - 1 && g.k < |c| && c[i] in h && c[i + 1] in h && a in h && (g.p == a || g.p == c[i])
    requires Merged(h, c, a, i, g)[g.p].size < ALLOCATED_BIT && h[a].size < ALLOCATED_BIT
    requires forall x :: x in c ==> x in h && h[x].size < ALLOCATED_BIT
    ensures OnlyTouched(h, Merged(h, c, a, i, g), Elements(c) + {a})
  {
  }

  lemma InsertedChain(c: seq<nat>, h: Headers, free: Blocks, marks: set<nat>, start: nat, end: nat,
                      a: nat, size: nat, i: nat, h': Headers)
    requires Chain(c, h, free, marks, start, end) && i < |c| - 1
    requires a in h && h[a].size == size && 0 < a != start && a !in marks && a !in c && 0 < size
    requires c[|c| - 1] == end && (i > 0 ==> c[i] < a) && a + size <= c[i + 1]
    requires forall j :: 1 <= j < |c| && c[j] == c[i + 1] ==> j == i + 1
    requires var g := Gap(c, free, a, size, i, end);
             && g.k < |c| && IsFront(free, a, g.p) && h' == Merged(h, c, a, i, g)
    requires (a + size in free ==> a + size == c[i + 1]) && end !in free
    ensures var g := Gap(c, free, a, size, i, end);
            Chain(Replace(c, g.m, g.k, g.p), h', Join(free, g.p, a, size), marks, start, end)
  {
    hide Chain, Listed, Path, Ascending;
    var g := Gap(c, free, a, size, i, end);
    var d := Replace(c, g.m, g.k, g.p);
    var free' := Join(free, g.p, a, size);
    SeamOrder(c, h, free, marks, start, end, a, size, i);
    SeamHeaders(c, h, free, marks, start, end, a, size, i, h');
    SeamElsewhere(c, h, free, marks, start, end, a, size, i, h');
    SeamFree(c, free, a, size, i, end);
    ChainInsert(c, h, free, marks, start, end, g.m, g.k, g.p, d, h', free');
  }

  /** An interior end marker that the inserted block touches leaves the list. */
  lemma MarkerMergedOut(c: seq<nat>, h: Headers, free: Blocks, marks: set<nat>, start: nat, end: nat,
                        a: nat, size: nat, i: nat)
    requires Chain(c, h, free, marks, start, end) && i < |c| - 1 && a !in c && 0 < size
    requires a + size == c[i + 1] != end
    ensures var g := Gap(c, free, a, size, i, end); c[i + 1] !in Replace(c, g.m, g.k, g.p)
  {
    hide Path, Listed;
    var g := Gap(c, free, a, size, i, end);
    var d := Replace(c, g.m, g.k, g.p);
    forall j | 0 <= j < |d|
      ensures d[j] != c[i + 1]
    {
      assert j < g.m ==> d[j] == c[j];
      assert j > g.m ==> d[j] == c[j - g.m - 1 + g.k];
    }
  }

  lemma SeamOrder(c: seq<nat>, h: Headers, free: Blocks, marks: set<nat>, start: nat, end: nat,
                  a: nat, size: nat, i: nat)
    requires Chain(c, h, free, marks, start, end) && i < |c| - 1 && 0 < a != start && 0 < size
    requires (i > 0 ==> c[i] < a) && a + size <= c[i + 1]
    ensures var g := Gap(c, free, a, size, i, end);
            0 < g.p != start && (g.m > 1 ==> c[g.m - 1] < g.p) && g.p < c[g.k]
  {
  }

  lemma SeamHeaders(c: seq<nat>, h: Headers, free: Blocks, marks: set<nat>, start: nat, end: nat,
                    a: nat, size: nat, i: nat, h': Headers)
    requires Chain(c, h, free, marks, start, end) && i < |c| - 1 && a in h && h[a].size == size && a !in c
    requires var g := Gap(c, free, a, size, i, end);
             && g.k < |c| && IsFront(free, a, g.p) && h' == Merged(h, c, a, i, g)
    requires (a + size in free ==> a + size == c[i + 1]) && end !in free && 0 < size
    ensures var g := Gap(c, free, a, size, i, end);
            && g.p in h' && h'[g.p] == BlockLink(c[g.k], Join(free, g.p, a, size)[g.p])
  {
    hide Ascending;
  }

  lemma SeamElsewhere(c: seq<nat>, h: Headers, free: Blocks, marks: set<nat>, start: nat, end: nat,
                      a: nat, size: nat, i: nat, h': Headers)
    requires Chain(c, h, free, marks, start, end) && i < |c| - 1 && a in h && a !in c
    requires var g := Gap(c, free, a, size, i, end); g.k < |c| && h' == Merged(h, c, a, i, g)
    ensures var g := Gap(c, free, a, size, i, end);
            && c[g.m - 1] in h' && h'[c[g.m - 1]] == BlockLink(g.p, h[c[g.m - 1]].size)
            && forall j {:trigger h'[c[j]]} {:trigger c[j] in h'} ::
                 0 <= j < |c| && !(g.m - 1 <= j < g.k) ==> c[j] in h' && h'[c[j]] == h[c[j]]
  {
    hide Listed;
  }

  lemma SeamFree(c: seq<nat>, free: Blocks, a: nat, size: nat, i: nat, end: nat)
    requires i < |c| - 1 && c[|c| - 1] == end && 0 < size
    requires forall j :: 1 <= j < |c| && c[j] == c[i + 1] ==> j == i + 1
    requires IsFront(free, a, Gap(c, free, a, size, i, end).p)
    requires (a + size in free ==> a + size == c[i + 1]) && end !in free
    ensures var g := Gap(c, free, a, size, i, end);
            var free' := Join(free, g.p, a, size);
            && (forall x :: x in free' && x != g.p ==> x in free && free'[x] == free[x])
            && (forall j :: 1 <= j < |c| && !(g.m <= j < g.k) && c[j] in free ==> c[j] in free')
            && (forall j :: g.m <= j < g.k && c[j] != g.p ==> c[j] !in free')
  {
  }

  /** `p` in place of the elements from `m` up to `k`. */
  ghost function Replace(c: seq<nat>, m: nat, k: nat, p: nat): (d: seq<nat>)
    requires m <= k <= |c|
    ensures |d| == m + 1 + |c| - k && d[m] == p
    ensures forall i {:trigger d[i]} :: 0 <= i < m ==> d[i] == c[i]
    ensures forall i {:trigger d[i]} :: m < i < |d| ==> d[i] == c[i - m - 1 + k]
  {
    c[..m] + [p] + c[k..]
  }

  ghost predicate IsReplace(c: seq<nat>, m: nat, k: nat, p: nat, d: seq<nat>) {
    && m <= k <= |c| && |d| == m + 1 + |c| - k && d[m] == p
    && (forall i {:trigger d[i]} :: 0 <= i < m ==> d[i] == c[i])
    && (forall i {:trigger d[i]} :: m < i < |d| ==> d[i] == c[i - m - 1 + k])
  }

  lemma ReplaceAscending(c: seq<nat>, m: nat, k: nat, p: nat, d: seq<nat>, start: nat)
    requires IsReplace(c, m, k, p, d) && Ascending(c, start)
    requires 1 <= m && k < |c| && 0 < p != start && (m > 1 ==> c[m - 1] < p) && p < c[k]
    ensures Ascending(d, start)
  {
    forall i, j | 1 <= i < j < |d|
      ensures d[i] < d[j]
    {
      assert i < m ==> c[i] <= c[m - 1];
      assert j > m ==> c[k] <= c[j - m - 1 + k];
    }
  }

  lemma ReplacePath(c: seq<nat>, h: Headers, m: nat, k: nat, p: nat, d: seq<nat>, h': Headers)
    requires IsReplace(c, m, k, p, d) && Path(c, h) && 1 <= m && k < |c|
    requires p in h' && h'[p].next == c[k]
    requires c[m - 1] in h' && h'[c[m - 1]].next == p
    requires forall i {:trigger h'[c[i]]} {:trigger c[i] in h'} ::
              0 <= i < |c| && !(m - 1 <= i < k) ==> c[i] in h' && h'[c[i]].next == h[c[i]].next
    ensures Path(d, h')
  {
    forall i | 0 <= i < |d|
      ensures d[i] in h' && (i < |d| - 1 ==> h'[d[i]].next == d[i + 1])
    {
      if i != m {
        var j := if i < m then i else i - m - 1 + k;
        assert d[i] == c[j] && c[j] in h';
      }
    }
  }

  lemma ReplaceListed(c: seq<nat>, h: Headers, free: Blocks, marks: set<nat>,
                      m: nat, k: nat, p: nat, d: seq<nat>, h': Headers, free': Blocks)
    requires IsReplace(c, m, k, p, d) && 1 <= m && Path(c, h) && Path(d, h') && Listed(c, h, free, marks)
    requires p in free' && h'[p].size == free'[p]
    requires forall a :: a in free' && a != p ==> a in free && free'[a] == free[a]
    requires forall i {:trigger h'[c[i]]} {:trigger c[i] in free} :: 1 <= i < |c| && !(m <= i < k) ==>
               c[i] in h' && h'[c[i]].size == h[c[i]].size && (c[i] in free ==> c[i] in free')
    requires forall i :: m <= i < k && c[i] != p ==> c[i] !in free'
    ensures Listed(d, h', free', marks)
  {
    forall i | 1 <= i < |d|
      ensures if d[i] in free' then h'[d[i]].size == free'[d[i]] else d[i] in marks && h'[d[i]].size == 0
    {
      if i != m {
        var j := if i < m then i else i - m - 1 + k;
        assert d[i] == c[j] && h'[c[j]].size == h[c[j]].size;
      }
    }
    ReplaceComplete(c, free, m, k, p, d, free');
  }

  lemma ReplaceComplete(c: seq<nat>, free: Blocks, m: nat, k: nat, p: nat, d: seq<nat>, free': Blocks)
    requires IsReplace(c, m, k, p, d) && 1 <= m
    requires forall a :: a in free ==> exists i :: 1 <= i < |c| && c[i] == a
    requires forall a :: a in free' && a != p ==> a in free
    requires forall i :: m <= i < k && c[i] != p ==> c[i] !in free'
    ensures forall a :: a in free' ==> exists i :: 1 <= i < |d| && d[i] == a
  {
    forall a | a in free'
      ensures exists i :: 1 <= i < |d| && d[i] == a
    {
      if a == p {
        assert d[m] == a;
      } else {
        var i :| 1 <= i < |c| && c[i] == a;
        assert d[if i < m then i else i - k + m + 1] == a;
      }
    }
  }

  /** One more region at the end of the list. */
  lemma ChainAppend(c: seq<nat>, h: Headers, free: Blocks, marks: set<nat>, start: nat, end: nat,
                    base: nat, limit: nat, d: seq<nat>, h': Headers)
    requires Chain(c, h, free, marks, start, end) && end !in free && 0 < end < base < limit
    requires base != start && limit != start && d == c + [base, limit]
    requires h' == h[limit := BlockLink(NULL, 0)][base := BlockLink(limit, limit - base)]
                    [end := BlockLink(base, h[end].size)]
    ensures Chain(d, h', free[base := limit - base], marks + {limit}, start, limit)
  {
    assert d[|c|] == base && d[|c| + 1] == limit;
    AppendPath(c, h, start, end, base, limit, d, h');
    AppendListed(c, h, free, marks, start, end, base, limit, d, h');
    hide Path, Listed;
    assert d[0] == c[0];
    assert h[start].size == 0;
  }

  lemma AppendPath(c: seq<nat>, h: Headers, start: nat, end: nat, base: nat, limit: nat, d: seq<nat>, h': Headers)
    requires Path(c, h) && Ascending(c, start) && 2 <= |c| && c[0] == start && c[|c| - 1] == end
    requires end < base < limit && base != start && limit != start && d == c + [base, limit]
    requires h' == h[limit := BlockLink(NULL, 0)][base := BlockLink(limit, limit - base)]
                    [end := BlockLink(base, h[end].size)]
    ensures Path(d, h')
  {
    forall i | 0 <= i < |d|
      ensures d[i] in h' && (i < |d| - 1 ==> h'[d[i]].next == d[i + 1])
    {
      if i < |c| {
        assert d[i] == c[i] && c[i] in h;
        assert i < |c| - 1 ==> h[c[i]].next == d[i + 1] && c[i] != end;
      }
    }
  }

  lemma AppendListed(c: seq<nat>, h: Headers, free: Blocks, marks: set<nat>, start: nat, end: nat,
                     base: nat, limit: nat, d: seq<nat>, h': Headers)
    requires Path(c, h) && Path(d, h') && Listed(c, h, free, marks) && Ascending(c, start)
    requires 2 <= |c| && c[0] == start && c[|c| - 1] == end
    requires end < base < limit && end !in free && d == c + [base, limit]
    requires h' == h[limit := BlockLink(NULL, 0)][base := BlockLink(limit, limit - base)]
                    [end := BlockLink(base, h[end].size)]
    ensures Listed(d, h', free[base := limit - base], marks + {limit})
  {
    var free' := free[base := limit - base];
    forall i | 1 <= i < |d|
      ensures if d[i] in free' then h'[d[i]].size == free'[d[i]] else d[i] in marks + {limit} && h'[d[i]].size == 0
    {
      if i < |c| {
        assert d[i] == c[i] && c[i] <= end && h[c[i]].size == h'[d[i]].size;
      }
    }
    forall a | a in free'
      ensures exists i :: 1 <= i < |d| && d[i] == a
    {
      if a != base {
        var i :| 1 <= i < |c| && c[i] == a;
        assert d[i] == a;
      } else {
        assert d[|c|] == a;
      }
    }
  }

  /** A free block put in the list in place of those from `m` up to `k`. */
  lemma ChainInsert(c: seq<nat>, h: Headers, free: Blocks, marks: set<nat>, start: nat, end: nat,
                    m: nat, k: nat, p: nat, d: seq<nat>, h': Headers, free': Blocks)
    requires Chain(c, h, free, marks, start, end) && IsReplace(c, m, k, p, d)
    requires 1 <= m <= k < |c| && 0 < p != start && (m > 1 ==> c[m - 1] < p) && p < c[k]
    requires p in free' && forall a :: a in free' && a != p ==> a in free && free'[a] == free[a]
    requires forall i :: 1 <= i < |c| && !(m <= i < k) && c[i] in free ==> c[i] in free'
    requires forall i :: m <= i < k && c[i] != p ==> c[i] !in free'
    requires p in h' && h'[p] == BlockLink(c[k], free'[p])
    requires c[m - 1] in h' && h'[c[m - 1]] == BlockLink(p, h[c[m - 1]].size)
    requires forall i {:trigger h'[c[i]]} {:trigger c[i] in h'} ::
              0 <= i < |c| && !(m - 1 <= i < k) ==> c[i] in h' && h'[c[i]] == h[c[i]]
    ensures Chain(d, h', free', marks, start, end)
  {
    KeptSizes(c, h, m, k, h');
    ReplaceAscending(c, m, k, p, d, start);
    ReplacePath(c, h, m, k, p, d, h');
    ReplaceListed(c, h, free, marks, m, k, p, d, h', free');
    ReplaceEnds(c, m, k, p, d);
    hide Path, Ascending, Listed, IsReplace;
  }

  lemma ReplaceEnds(c: seq<nat>, m: nat, k: nat, p: nat, d: seq<nat>)
    requires IsReplace(c, m, k, p, d) && 1 <= m <= k < |c|
    ensures 2 <= |d| && d[0] == c[0] && d[|d| - 1] == c[|c| - 1]
  {
    var i := |d| - 1;
    assert d[i] == c[i - m - 1 + k];
  }

  lemma KeptSizes(c: seq<nat>, h: Headers, m: nat, k: nat, h': Headers)
    requires 1 <= m <= k < |c| && Path(c, h)
    requires c[m - 1] in h' && h'[c[m - 1]].size == h[c[m - 1]].size
    requires forall i {:trigger h'[c[i]]} {:trigger c[i] in h'} ::
              0 <= i < |c| && !(m - 1 <= i < k) ==> c[i] in h' && h'[c[i]] == h[c[i]]
    ensures forall i {:trigger h'[c[i]]} {:trigger c[i] in h'} ::
              0 <= i < |c| && !(m <= i < k) ==> c[i] in h' && h'[c[i]].size == h[c[i]].size
  {
    forall i | 0 <= i < |c| && !(m <= i < k)
      ensures c[i] in h' && h'[c[i]].size == h[c[i]].size
    {
      assert i == m - 1 || !(m - 1 <= i < k);
    }
  }
}
