/** The layout of a heap, apart from the pointers that record it: which byte ranges are free, which
    belong to the application, and what it means for the free ones to be coalesced. */
module HeapLayout {
  import opened Common
  import opened Sums

  /** portBYTE_ALIGNMENT. */
  type Alignment = a: int | 1 <= a witness 1
  const ALIGNMENT: Alignment

  /** xHeapStructSize, the room a block header takes, rounded up to the alignment. */
  type Extent = s: int | 1 <= s && s % ALIGNMENT == 0 witness ALIGNMENT
  const STRUCT_SIZE: Extent

  /** The bytes between an aligned start and the end marker of one heap region. */
  datatype Region = Region(base: nat, limit: nat) {
    predicate Holds(addr: nat, size: nat) {
      base <= addr && addr + size <= limit
    }
  }

  /** Regions in address order, with room for the end marker behind each. */
  ghost predicate RegionsOK(regions: seq<Region>) {
    && (forall i :: 0 <= i < |regions| ==> 0 < regions[i].base && regions[i].base + STRUCT_SIZE <= regions[i].limit)
    && (forall i, j :: 0 <= i < j < |regions| ==> regions[i].limit + STRUCT_SIZE <= regions[j].base)
  }

  lemma RegionsPrefix(regions: seq<Region>, k: nat)
    requires RegionsOK(regions) && k < |regions|
    ensures RegionsOK(regions[..k + 1]) && 0 < regions[k].base < regions[k].limit
    ensures k > 0 ==> 0 < regions[k - 1].limit
  {
  }

  ghost predicate Within(regions: seq<Region>, addr: nat, size: nat) {
    exists i :: 0 <= i < |regions| && regions[i].Holds(addr, size)
  }

  /** Where the end markers are. */
  ghost function Marks(regions: seq<Region>): set<nat> {
    set i | 0 <= i < |regions| :: regions[i].limit
  }

  lemma RegionLimits(regions: seq<Region>, i: nat, j: nat)
    requires RegionsOK(regions) && i < |regions| && j < |regions| && regions[i].base <= regions[j].limit
    ensures regions[i].limit <= regions[j].limit
  {
  }

  /** What starts before an end marker in some region ends before it. */
  lemma BeforeLimit(regions: seq<Region>, a: nat, size: nat, x: nat)
    requires RegionsOK(regions) && Within(regions, a, size) && x in Marks(regions) && a <= x
    ensures a + size <= x
  {
    hide RegionsOK;
    var i :| 0 <= i < |regions| && regions[i].Holds(a, size);
    var j :| 0 <= j < |regions| && regions[j].limit == x;
    RegionLimits(regions, i, j);
  }

  /** Blocks, by address: how many bytes each one has. */
  type Blocks = map<nat, nat>

  ghost predicate Covers(m: Blocks, x: nat) {
    exists a :: a in m && a <= x < a + m[a]
  }

  ghost predicate Sound(m: Blocks, regions: seq<Region>) {
    (forall a :: a in m ==> STRUCT_SIZE <= m[a] && Within(regions, a, m[a])) && Disjoint(m)
  }

  ghost predicate Disjoint(m: Blocks) {
    forall a, b :: a in m && b in m && a < b ==> a + m[a] <= b
  }

  ghost predicate Apart(m: Blocks, n: Blocks) {
    forall a, b :: a in m && b in n ==> a + m[a] <= b || b + n[b] <= a
  }

  /** Free and live blocks tile the regions and no two free blocks touch. */
  ghost predicate Layout(free: Blocks, live: Blocks, regions: seq<Region>) {
    && Sound(free, regions) && Sound(live, regions) && Apart(free, live)
    && (forall x :: Within(regions, x, 1) ==> Covers(free, x) || Covers(live, x))
    && Coalesced(free)
  }

  ghost predicate Coalesced(free: Blocks) {
    forall a :: a in free ==> a + free[a] !in free
  }

  // ----- The free list is a function of the live blocks -----

  ghost predicate FreeByte(live: Blocks, regions: seq<Region>, x: nat) {
    Within(regions, x, 1) && !Covers(live, x)
  }

  /** A maximal run of bytes that lie in some region and in no live block. */
  ghost predicate MaximalGap(live: Blocks, regions: seq<Region>, addr: nat, size: nat) {
    && 0 < size
    && (forall x :: addr <= x < addr + size ==> FreeByte(live, regions, x))
    && (addr > 0 ==> !FreeByte(live, regions, addr - 1))
    && !FreeByte(live, regions, addr + size)
  }

  /** Every free block is a maximal gap between live blocks. */
  lemma FreeIsGap(free: Blocks, live: Blocks, regions: seq<Region>, a: nat)
    requires Layout(free, live, regions) && a in free
    ensures MaximalGap(live, regions, a, free[a])
  {
    var i :| 0 <= i < |regions| && regions[i].Holds(a, free[a]);
    forall x | a <= x < a + free[a]
      ensures FreeByte(live, regions, x)
    {
      assert regions[i].Holds(x, 1);
    }
    assert a > 0 ==> !Covers(free, a - 1);
    assert !Covers(free, a + free[a]);
  }

  /** Every maximal gap between live blocks is a free block, whole. */
  lemma GapIsFree(free: Blocks, live: Blocks, regions: seq<Region>, a: nat, size: nat)
    requires Layout(free, live, regions) && MaximalGap(live, regions, a, size)
    ensures a in free && free[a] == size
  {
    assert FreeByte(live, regions, a);
    var b :| b in free && b <= a < b + free[b];
    FreeIsGap(free, live, regions, b);
  }

  /** Canonical form: two heaps with the same live blocks have the same free blocks, whatever the
      history of allocations and releases that led to each. */
  lemma Canonical(free: Blocks, free': Blocks, live: Blocks, regions: seq<Region>)
    requires Layout(free, live, regions) && Layout(free', live, regions)
    ensures free == free'
  {
    forall a | a in free
      ensures a in free' && free'[a] == free[a]
    {
      FreeIsGap(free, live, regions, a);
      GapIsFree(free', live, regions, a, free[a]);
    }
    forall a | a in free'
      ensures a in free
    {
      FreeIsGap(free', live, regions, a);
      GapIsFree(free, live, regions, a, free'[a]);
    }
  }

  // ----- The three changes of layout -----

  /** The free block, if any, that ends where `a` starts; `a` itself when there is none. */
  ghost predicate IsFront(free: Blocks, a: nat, p: nat) {
    if p in free then p + free[p] == a else p == a && forall b :: b in free ==> b + free[b] != a
  }

  /** The free blocks after the bytes from `a` join them: merged with the block in front, which
      starts at `p`, and with the block behind. */
  ghost function Join(free: Blocks, p: nat, a: nat, size: nat): (free': Blocks)
    requires IsFront(free, a, p)
    ensures p in free' && p <= a && a + size <= p + free'[p]
  {
    var behind := if a + size in free then free[a + size] else 0;
    (map x | x in free && x != a + size :: free[x])[p := a - p + size + behind]
  }

  lemma JoinKeepsLayout(free: Blocks, live: Blocks, regions: seq<Region>, p: nat, a: nat)
    requires RegionsOK(regions) && Layout(free, live, regions) && a in live && IsFront(free, a, p)
    ensures Layout(Join(free, p, a, live[a]), live - {a}, regions)
  {
    hide Sound, Apart, Covers, Within, Coalesced, Join, RegionsOK, IsFront;
    JoinSound(free, live, regions, p, a);
    JoinCovers(free, live, regions, p, a);
  }

  lemma JoinSound(free: Blocks, live: Blocks, regions: seq<Region>, p: nat, a: nat)
    requires RegionsOK(regions) && Layout(free, live, regions) && a in live && IsFront(free, a, p)
    ensures var free' := Join(free, p, a, live[a]);
            && Sound(free', regions) && Sound(live - {a}, regions) && Apart(free', live - {a}) && Coalesced(free')
  {
    hide RegionsOK, Within, Covers, Join, IsFront, Apart;
    JoinWithin(free, regions, p, a, live[a]);
    JoinSeparates(free, live, regions, p, a);
  }

  lemma JoinCovers(free: Blocks, live: Blocks, regions: seq<Region>, p: nat, a: nat)
    requires Layout(free, live, regions) && a in live && IsFront(free, a, p)
    ensures forall x: nat :: Within(regions, x, 1) ==> Covers(Join(free, p, a, live[a]), x) || Covers(live - {a}, x)
  {
    forall x: nat | Within(regions, x, 1)
      ensures Covers(Join(free, p, a, live[a]), x) || Covers(live - {a}, x)
    {
      JoinCoversByte(free, live, p, a, x);
    }
  }

  lemma JoinCoversByte(free: Blocks, live: Blocks, p: nat, a: nat, x: nat)
    requires a in live && IsFront(free, a, p) && (Covers(free, x) || Covers(live, x))
    ensures Covers(Join(free, p, a, live[a]), x) || Covers(live - {a}, x)
  {
    var free' := Join(free, p, a, live[a]);
    if Covers(free, x) {
      var b :| b in free && b <= x < b + free[b];
      assert b in free' || p <= x < p + free'[p];
    } else {
      var b :| b in live && b <= x < b + live[b];
      assert b in live - {a} || p <= x < p + free'[p];
    }
  }

  /** Blocks that touch are in one region: an end marker keeps regions apart. */
  lemma TouchingWithin(regions: seq<Region>, a: nat, s: nat, t: nat)
    requires RegionsOK(regions) && Within(regions, a, s) && Within(regions, a + s, t) && 0 < s && 0 < t
    ensures Within(regions, a, s + t)
  {
    var i :| 0 <= i < |regions| && regions[i].Holds(a, s);
    var j :| 0 <= j < |regions| && regions[j].Holds(a + s, t);
    assert i == j;
    assert regions[i].Holds(a, s + t);
  }

  lemma JoinWithin(free: Blocks, regions: seq<Region>, p: nat, a: nat, size: nat)
    requires RegionsOK(regions) && STRUCT_SIZE <= size && Within(regions, a, size) && IsFront(free, a, p)
    requires forall b :: b in free ==> STRUCT_SIZE <= free[b] && Within(regions, b, free[b])
    ensures forall b :: b in Join(free, p, a, size) ==>
              STRUCT_SIZE <= Join(free, p, a, size)[b] && Within(regions, b, Join(free, p, a, size)[b])
  {
    hide Within, RegionsOK;
    var tail := size;
    if a + size in free {
      TouchingWithin(regions, a, size, free[a + size]);
      tail := size + free[a + size];
    }
    if p in free {
      TouchingWithin(regions, p, free[p], tail);
    }
  }

  lemma JoinSeparates(free: Blocks, live: Blocks, regions: seq<Region>, p: nat, a: nat)
    requires Layout(free, live, regions) && a in live && IsFront(free, a, p)
    ensures var free' := Join(free, p, a, live[a]);
            && (forall b, c :: b in free' && c in free' && b < c ==> b + free'[b] < c)
            && Apart(free', live - {a})
  {
    hide Within, Covers, Join;
    var free' := Join(free, p, a, live[a]);
    forall b | b in free' && b != p
      ensures b + free'[b] < p || p + free'[p] < b
    {
      hide Apart, Disjoint, Coalesced, Sound, IsFront;
      JoinClear(free, p, a, live[a], b);
    }
    JoinKeys(free, p, a, live[a]);
    JoinApart(free, live, p, a);
  }

  /** A free block that is not merged does not touch the merged one. */
  lemma JoinClear(free: Blocks, p: nat, a: nat, size: nat, b: nat)
    requires Disjoint(free) && Coalesced(free) && (forall c :: c in free ==> 0 < free[c]) && 0 < size
    requires forall c :: c in free ==> c + free[c] <= a || a + size <= c
    requires IsFront(free, a, p) && b in Join(free, p, a, size) && b != p
    ensures var free' := Join(free, p, a, size); b + free'[b] < p || p + free'[p] < b
  {
    var free', q := Join(free, p, a, size), a + size;
    assert b in free && free'[b] == free[b] && b != q;
    assert b + free[b] != p && b != p + free'[p];
  }

  lemma JoinKeys(free: Blocks, p: nat, a: nat, size: nat)
    requires IsFront(free, a, p)
    ensures forall b :: b in Join(free, p, a, size) && b != p ==> b in free && Join(free, p, a, size)[b] == free[b]
  {
  }

  lemma JoinApart(free: Blocks, live: Blocks, p: nat, a: nat)
    requires Disjoint(live) && Apart(free, live) && a in live && IsFront(free, a, p)
    requires (forall b :: b in live ==> 0 < live[b]) && (forall b :: b in free ==> 0 < free[b])
    ensures Apart(Join(free, p, a, live[a]), live - {a})
  {
    var free' := Join(free, p, a, live[a]);
    forall c | c in live && c != a
      ensures p + free'[p] <= c || c + live[c] <= p
    {
    }
  }

  /** A free block handed out whole. */
  lemma TakeKeepsLayout(free: Blocks, live: Blocks, regions: seq<Region>, a: nat)
    requires Layout(free, live, regions) && a in free
    ensures Layout(free - {a}, live[a := free[a]], regions)
  {
    TakeSound(free, live, regions, a);
    forall x: nat | Within(regions, x, 1)
      ensures Covers(free - {a}, x) || Covers(live[a := free[a]], x)
    {
      TakeCoversByte(free, live, a, x);
    }
  }

  lemma TakeSound(free: Blocks, live: Blocks, regions: seq<Region>, a: nat)
    requires Sound(free, regions) && Sound(live, regions) && Apart(free, live) && a in free
    ensures a !in live
    ensures Sound(free - {a}, regions) && Sound(live[a := free[a]], regions) && Apart(free - {a}, live[a := free[a]])
  {
    hide Within;
  }

  lemma TakeCoversByte(free: Blocks, live: Blocks, a: nat, x: nat)
    requires a in free && a !in live && (Covers(free, x) || Covers(live, x))
    ensures Covers(free - {a}, x) || Covers(live[a := free[a]], x)
  {
    var live' := live[a := free[a]];
    if Covers(free, x) {
      var b :| b in free && b <= x < b + free[b];
      assert b in free - {a} || b in live';
    } else {
      var b :| b in live && b <= x < b + live[b];
      assert b in live';
    }
  }

  /** A block outside the free list cut in two. */
  ghost function Cut(live: Blocks, a: nat, k: nat): Blocks
    requires a in live && k <= live[a]
  {
    live[a := k][a + k := live[a] - k]
  }

  lemma CutKeepsLayout(free: Blocks, live: Blocks, regions: seq<Region>, a: nat, k: nat)
    requires Layout(free, live, regions) && a in live && STRUCT_SIZE <= k && k + STRUCT_SIZE <= live[a]
    ensures Layout(free, Cut(live, a, k), regions)
  {
    CutSound(free, live, regions, a, k);
    forall x: nat | Within(regions, x, 1)
      ensures Covers(free, x) || Covers(Cut(live, a, k), x)
    {
      if Covers(live, x) {
        CutCoversByte(live, a, k, x);
      }
    }
  }

  lemma CutSound(free: Blocks, live: Blocks, regions: seq<Region>, a: nat, k: nat)
    requires Sound(free, regions) && Sound(live, regions) && Apart(free, live)
    requires a in live && STRUCT_SIZE <= k && k + STRUCT_SIZE <= live[a]
    ensures Sound(Cut(live, a, k), regions) && Apart(free, Cut(live, a, k))
  {
    CutWithin(regions, a, k, live[a]);
    CutDisjoint(live, a, k);
    CutApart(free, live, a, k);
  }

  lemma CutApart(free: Blocks, live: Blocks, a: nat, k: nat)
    requires Apart(free, live) && a in live && k <= live[a]
    requires forall b :: b in free ==> 0 < free[b]
    ensures Apart(free, Cut(live, a, k))
  {
    forall b | b in free
      ensures b + free[b] <= a || a + live[a] <= b
    {
    }
  }

  lemma CutDisjoint(live: Blocks, a: nat, k: nat)
    requires Disjoint(live) && a in live && 0 < k < live[a]
    ensures Disjoint(Cut(live, a, k))
  {
    var live' := Cut(live, a, k);
    forall b, c | b in live' && c in live' && b < c
      ensures b + live'[b] <= c
    {
      assert b != a + k ==> b in live;
      assert c != a + k ==> c in live;
    }
  }

  lemma CutWithin(regions: seq<Region>, a: nat, k: nat, size: nat)
    requires Within(regions, a, size) && k <= size
    ensures Within(regions, a, k) && Within(regions, a + k, size - k)
  {
    var i :| 0 <= i < |regions| && regions[i].Holds(a, size);
    assert regions[i].Holds(a, k) && regions[i].Holds(a + k, size - k);
  }

  lemma CutCoversByte(live: Blocks, a: nat, k: nat, x: nat)
    requires a in live && 0 < k <= live[a] && a + k !in live && Covers(live, x)
    ensures Covers(Cut(live, a, k), x)
  {
    var b :| b in live && b <= x < b + live[b];
    assert b in Cut(live, a, k) && a + k in Cut(live, a, k);
  }

  /** The end of a block cut off and joined to free space that does not touch it. */
  lemma JoinCutEnd(free: Blocks, live: Blocks, regions: seq<Region>, a: nat, k: nat, p: nat)
    requires Layout(free, live, regions) && a in live && 0 < k < live[a] && a + live[a] !in free
    requires IsFront(free, a + k, p)
    ensures Join(free, p, a + k, live[a] - k) == free[a + k := live[a] - k]
  {
    LiveBlockAlone(free, live, regions, a, k);
    hide Layout, Join;
    assert p == a + k;
    JoinAlone(free, a + k, live[a] - k);
  }

  lemma JoinAlone(free: Blocks, a: nat, size: nat)
    requires IsFront(free, a, a) && a !in free && a + size !in free
    ensures Join(free, a, a, size) == free[a := size]
  {
  }

  lemma LiveBlockAlone(free: Blocks, live: Blocks, regions: seq<Region>, a: nat, k: nat)
    requires Layout(free, live, regions) && a in live && 0 < k < live[a]
    ensures a + k !in free && a + k !in live && forall b :: b in free ==> b + free[b] != a + k
    ensures Cut(live, a, k) - {a + k} == live[a := k]
  {
    hide Within, Covers, Coalesced;
  }

  lemma FreeBlockAlone(free: Blocks, live: Blocks, regions: seq<Region>, a: nat, k: nat)
    requires Layout(free, live, regions) && a in free
    ensures a + free[a] !in free && a !in live
    ensures 0 < k < free[a] ==> a + k !in free && a + k !in live
  {
    hide Within, Covers;
  }

  /** The heap before the first allocation: one free block to a region. */
  ghost predicate IsInitial(free: Blocks, regions: seq<Region>) {
    && (forall i :: 0 <= i < |regions| ==>
          regions[i].base in free && regions[i].base + free[regions[i].base] == regions[i].limit)
    && (forall a :: a in free ==> exists i :: 0 <= i < |regions| && regions[i].base == a)
  }

  /** One more region, in one free block. */
  lemma InitialAdd(free: Blocks, regions: seq<Region>, r: Region)
    requires IsInitial(free, regions) && RegionsOK(regions + [r]) && r.base <= r.limit
    ensures r.base !in free && (forall i ::
              0 <= i < |regions| ==> regions[i].limit < r.base && regions[i].limit !in free)
    ensures IsInitial(free[r.base := r.limit - r.base], regions + [r])
  {
    var regions' := regions + [r];
    assert regions'[|regions|] == r;
    forall i | 0 <= i < |regions|
      ensures regions[i].base < regions[i].limit < r.base && regions'[i] == regions[i]
    {
      assert regions'[i].limit + STRUCT_SIZE <= regions'[|regions|].base;
    }
    InitialMarks(free, regions, regions');
    hide RegionsOK;
    forall a | a in free
      ensures exists i :: 0 <= i < |regions'| && regions'[i].base == a
    {
      var i :| 0 <= i < |regions| && regions[i].base == a;
      assert regions'[i].base == a;
    }
  }

  lemma MarksAdd(regions: seq<Region>, r: Region)
    ensures Marks(regions + [r]) == Marks(regions) + {r.limit}
  {
    var regions' := regions + [r];
    assert regions'[|regions|] == r;
    assert forall i :: 0 <= i < |regions| ==> regions'[i] == regions[i];
    forall x | x in Marks(regions) + {r.limit}
      ensures x in Marks(regions')
    {
      var i :| 0 <= i < |regions'| && regions'[i].limit == x;
    }
  }

  lemma OneBlock(free: Blocks, regions: seq<Region>)
    requires |regions| == 1 && IsInitial(free, regions)
    ensures free.Keys == {regions[0].base} && free[regions[0].base] == regions[0].limit - regions[0].base
  {
    assert regions[0].base in free;
  }

  lemma InitialMarks(free: Blocks, regions: seq<Region>, regions': seq<Region>)
    requires IsInitial(free, regions) && RegionsOK(regions') && regions <= regions'
    ensures forall i :: 0 <= i < |regions| ==> regions[i].limit !in free
  {
    forall i, j | 0 <= i < |regions| && 0 <= j < |regions|
      ensures regions[i].limit != regions[j].base
    {
      assert regions'[i] == regions[i] && regions'[j] == regions[j];
    }
  }

  lemma InitialLayout(free: Blocks, regions: seq<Region>)
    requires RegionsOK(regions) && IsInitial(free, regions)
    ensures Layout(free, map[], regions)
  {
    forall a | a in free
      ensures STRUCT_SIZE <= free[a] && Within(regions, a, free[a])
    {
      var i :| 0 <= i < |regions| && regions[i].base == a;
      assert regions[i].Holds(a, free[a]);
    }
    InitialSeparate(free, regions);
    InitialCovers(free, regions);
  }

  lemma InitialSeparate(free: Blocks, regions: seq<Region>)
    requires RegionsOK(regions) && IsInitial(free, regions)
    ensures forall a, b :: a in free && b in free && a < b ==> a + free[a] < b
  {
    forall a, b | a in free && b in free && a < b
      ensures a + free[a] < b
    {
      hide RegionsOK;
      var i :| 0 <= i < |regions| && regions[i].base == a;
      var j :| 0 <= j < |regions| && regions[j].base == b;
      RegionOrder(regions, i, j);
    }
  }

  lemma RegionOrder(regions: seq<Region>, i: nat, j: nat)
    requires RegionsOK(regions) && i < |regions| && j < |regions| && regions[i].base < regions[j].base
    ensures regions[i].limit < regions[j].base
  {
  }

  lemma InitialCovers(free: Blocks, regions: seq<Region>)
    requires IsInitial(free, regions)
    ensures forall x: nat :: Within(regions, x, 1) ==> Covers(free, x)
  {
    forall x: nat | Within(regions, x, 1)
      ensures Covers(free, x)
    {
      var i :| 0 <= i < |regions| && regions[i].Holds(x, 1);
      var a := regions[i].base;
      assert a in free;
    }
  }

  // ----- Alignment -----

  ghost predicate Aligned(m: Blocks) {
    forall a :: a in m ==> a % ALIGNMENT == 0 && m[a] % ALIGNMENT == 0
  }

  /** The adjustment of a requested size: room for the header, then up to the next boundary. */
  function RoundUp(n: nat): nat {
    if n % ALIGNMENT != 0 then n + (ALIGNMENT - n % ALIGNMENT) else n
  }

  /** Clearing the low bits of an address. */
  function RoundDown(n: nat): nat {
    n - n % ALIGNMENT
  }

  lemma AlignedMultiple(n: nat) returns (q: nat)
    requires n % ALIGNMENT == 0
    ensures n == q * ALIGNMENT
  {
    q := n / ALIGNMENT;
  }

  lemma AlignedSum(x: nat, y: nat)
    requires x % ALIGNMENT == 0 && y % ALIGNMENT == 0
    ensures (x + y) % ALIGNMENT == 0
  {
    var p := AlignedMultiple(x);
    var q := AlignedMultiple(y);
    Distribute(p, q, ALIGNMENT);
    DivisionUnique(x + y, ALIGNMENT, p + q, 0);
  }

  lemma AlignedDifference(x: nat, y: nat)
    requires x % ALIGNMENT == 0 && y % ALIGNMENT == 0 && y <= x
    ensures (x - y) % ALIGNMENT == 0
  {
    var p := AlignedMultiple(x);
    var q := AlignedMultiple(y);
    Distribute(p, q, ALIGNMENT);
    Ordered(p, q, ALIGNMENT);
    DivisionUnique(x - y, ALIGNMENT, p - q, 0);
  }

  /** Rounding up gives the first multiple at or after a number. */
  lemma RoundUpIsNext(n: nat)
    ensures n <= RoundUp(n) < n + ALIGNMENT && RoundUp(n) % ALIGNMENT == 0
  {
    if n % ALIGNMENT != 0 {
      Distribute(n / ALIGNMENT, 1, ALIGNMENT);
      DivisionUnique(RoundUp(n), ALIGNMENT, n / ALIGNMENT + 1, 0);
    }
  }

  lemma RoundUpBranches(n: nat)
    ensures RoundUp(n) == if n % ALIGNMENT != 0 then n + (ALIGNMENT - n % ALIGNMENT) else n
  {
  }

  /** The two ways the source rounds up agree. */
  lemma RoundDownIsPrevious(n: nat)
    ensures RoundDown(n) % ALIGNMENT == 0
    ensures n % ALIGNMENT != 0 ==> RoundDown(n + (ALIGNMENT - 1)) == RoundUp(n)
  {
    DivisionUnique(RoundDown(n), ALIGNMENT, n / ALIGNMENT, 0);
    if n % ALIGNMENT != 0 {
      Distribute(n / ALIGNMENT, 1, ALIGNMENT);
      DivisionUnique(n + (ALIGNMENT - 1), ALIGNMENT, n / ALIGNMENT + 1, n % ALIGNMENT - 1);
    }
  }

  lemma AlignedAt(m: Blocks, a: nat)
    requires Aligned(m) && a in m
    ensures a % ALIGNMENT == 0 && m[a] % ALIGNMENT == 0 && Aligned(m - {a})
  {
  }

  lemma JoinAligned(free: Blocks, p: nat, a: nat, size: nat)
    requires Aligned(free) && IsFront(free, a, p) && a % ALIGNMENT == 0 && size % ALIGNMENT == 0
    ensures Aligned(Join(free, p, a, size))
  {
    AlignedDifference(a, p);
    AlignedSum(a - p, size);
    if a + size in free {
      AlignedSum(a - p + size, free[a + size]);
    }
  }

  // ----- Totals -----

  lemma JoinSum(free: Blocks, p: nat, a: nat, size: nat)
    requires IsFront(free, a, p) && a !in free && 0 < size
    ensures Sum(Join(free, p, a, size)) == Sum(free) + size
  {
    var rest := free;
    if p in free {
      SumWithout(free, p);
      rest := free - {p};
    }
    if a + size in free {
      SumWithout(rest, a + size);
      rest := rest - {a + size};
    }
    hide Sum;
    assert p !in rest && Join(free, p, a, size) == rest[p := Join(free, p, a, size)[p]];
    SumAdded(rest, p, Join(free, p, a, size)[p]);
  }

  lemma SumAdded(free: Blocks, a: nat, size: nat)
    requires a !in free
    ensures Sum(free[a := size]) == Sum(free) + size
  {
    SumWithout(free[a := size], a);
    assert free[a := size] - {a} == free;
  }

  lemma TakeSum(free: Blocks, a: nat)
    requires a in free
    ensures Sum(free - {a}) == Sum(free) - free[a] && free[a] <= Sum(free)
  {
    SumWithout(free, a);
  }

  /** A request larger than the total of the free blocks fits in none of them. */
  lemma NoneFits(free: Blocks, size: nat)
    ensures Sum(free) < size ==> forall a :: a in free ==> free[a] < size
  {
    forall a | a in free
      ensures free[a] <= Sum(free)
    {
      TakeSum(free, a);
    }
  }
}
