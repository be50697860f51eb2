/** Page ranges cut into power-of-two blocks: the abstract state of the buddy system of
    os-l1/kernel/src/pmm.c, and what splitting a block and merging two buddies keep. */
module Tiling {
  import opened Bits

  const MAX_ORDER: nat := 12

  datatype Tile = Tile(order: nat, free: bool)

  /** The block heads: first page of each block, with its order and whether it is free. */
  type Blocks = map<nat, Tile>

  predicate Covers(b: Blocks, h: nat, p: nat) {
    h in b && h <= p < h + Pow2(b[h].order)
  }

  ghost predicate Covered(b: Blocks, p: nat) {
    exists h: nat :: Covers(b, h, p)
  }

  /** The block that a page belongs to. */
  lemma BlockOf(b: Blocks, n: nat, p: nat) returns (h: nat)
    requires Tiles(b, n) && p < n
    ensures Covers(b, h, p)
  {
    assert Covered(b, p);
    h :| Covers(b, h, p);
  }

  function End(b: Blocks, h: nat): nat
    requires h in b
  {
    h + Pow2(b[h].order)
  }

  ghost predicate Apart(b: Blocks) {
    forall h, g | h in b && g in b && h < g :: End(b, h) <= g
  }

  /** The blocks lie inside the n pages, do not overlap, and leave no page out. */
  ghost predicate Tiles(b: Blocks, n: nat) {
    && (forall h | h in b :: End(b, h) <= n)
    && Apart(b)
    && (forall p: nat | p < n :: Covered(b, p))
  }

  /** Every block starts at an absolute page number that is a multiple of its size. */
  ghost predicate Aligned(b: Blocks, base: nat) {
    forall h | h in b :: b[h].order <= MAX_ORDER && (base + h) % Pow2(b[h].order) == 0
  }

  /** The first page of the other half of the block twice as large: the absolute page number with
      bit k flipped. */
  function BuddyPage(base: nat, h: nat, k: nat): int {
    if (base + h) / Pow2(k) % 2 == 0 then h + Pow2(k) else h - Pow2(k)
  }

  /** The range test of the source, which also turns away a buddy ending at the pool's end. */
  predicate BuddyInPool(base: nat, n: nat, h: nat, k: nat) {
    0 <= BuddyPage(base, h, k) && BuddyPage(base, h, k) + Pow2(k) < n
  }

  /** The free block h of order k and the free block above it are the halves of an aligned block
      twice as large. */
  predicate FreePair(b: Blocks, base: nat, h: nat, k: nat) {
    && h in b && b[h] == Tile(k, true)
    && h + Pow2(k) in b && b[h + Pow2(k)] == Tile(k, true)
    && BuddyPage(base, h, k) == h + Pow2(k)
  }

  /** No two free buddies below the top order coexist, unless the upper one ends the pool. */
  ghost predicate Coalesced(b: Blocks, base: nat, n: nat) {
    forall h: nat, k: nat | FreePair(b, base, h, k) && k < MAX_ORDER :: h + Pow2(k) + Pow2(k) >= n
  }

  ghost predicate Sound(b: Blocks, base: nat, n: nat) {
    Tiles(b, n) && Aligned(b, base) && Coalesced(b, base, n)
  }

  // ----- Aligned blocks -----------------------------------------------------------------------

  lemma Divisible(x: nat, j: nat, k: nat)
    requires j <= k && x % Pow2(k) == 0
    ensures x % Pow2(j) == 0
  {
    Pow2Add(j, k - j);
    DivDiv(x, Pow2(j), Pow2(k - j));
    NoRemainder(x / Pow2(j) % Pow2(k - j), Pow2(j), x % Pow2(j));
  }

  lemma NoRemainder(q: nat, m: nat, r: nat)
    requires q * m + r == 0
    ensures r == 0
  {}

  lemma MultipleOf(x: nat, m: nat)
    requires m > 0 && x % m == 0
    ensures x == x / m * m
  {}

  /** Multiples of m keep a distance of m. */
  lemma AlignedGap(x: nat, y: nat, m: nat)
    requires m > 0 && x % m == 0 && y % m == 0 && x < y
    ensures x + m <= y
  {
    MultipleOf(x, m);
    MultipleOf(y, m);
    GapOfFactors(x / m, y / m, m);
  }

  lemma GapOfFactors(u: nat, v: nat, m: nat)
    requires u * m < v * m
    ensures u * m + m <= v * m
  {
    if u >= v {
      MulMono(v, u, m);
    } else {
      MulMono(u + 1, v, m);
      assert (u + 1) * m == u * m + m;
    }
  }

  lemma AlignedSum(x: nat, y: nat, m: nat)
    requires m > 0 && x % m == 0 && y % m == 0
    ensures (x + y) % m == 0
  {
    MultipleOf(x, m);
    MultipleOf(y, m);
    SumOfFactors(x / m, y / m, m);
    DivUnique(x + y, m, x / m + y / m, 0);
  }

  lemma SumOfFactors(u: nat, v: nat, m: nat)
    ensures (u + v) * m == u * m + v * m
  {}

  lemma EvenMultiple(x: nat, m: nat)
    requires m > 0 && x % m == 0 && x / m % 2 == 0
    ensures x % (2 * m) == 0 && (x + m) % m == 0 && (x + m) / m == x / m + 1
  {
    var q := x / m;
    MultipleOf(x, m);
    HalfFactor(q, m);
    DivUnique(x, 2 * m, q / 2, 0);
    SumOfFactors(q, 1, m);
    DivUnique(x + m, m, q + 1, 0);
  }

  lemma OddMultiple(x: nat, m: nat)
    requires m > 0 && x % m == 0 && x / m % 2 == 1
    ensures x >= m && (x - m) % (2 * m) == 0 && (x - m) % m == 0 && (x - m) / m == x / m - 1
  {
    var q := x / m;
    MultipleOf(x, m);
    SumOfFactors(q - 1, 1, m);
    HalfFactor(q - 1, m);
    DivUnique(x - m, 2 * m, (q - 1) / 2, 0);
    DivUnique(x - m, m, q - 1, 0);
  }

  lemma PairDistance(base: nat, h: nat, k: nat)
    ensures BuddyPage(base, h, k) == h + Pow2(k) || BuddyPage(base, h, k) == h - Pow2(k)
    ensures Pow2(k + 1) == 2 * Pow2(k) && Pow2(k) > 0
  {}

  /** The lower half of a pair of buddies is aligned to twice its size; buddies are mutual. */
  lemma PairAligned(base: nat, h: nat, k: nat)
    requires (base + h) % Pow2(k) == 0
    ensures BuddyPage(base, h, k) > h ==> (base + h) % Pow2(k + 1) == 0
    ensures BuddyPage(base, h, k) < h ==> base + h >= Pow2(k) && (base + h - Pow2(k)) % Pow2(k + 1) == 0
    ensures BuddyPage(base, h, k) >= 0 ==> BuddyPage(base, BuddyPage(base, h, k), k) == h
    ensures BuddyPage(base, h, k) >= 0 ==> (base + BuddyPage(base, h, k)) % Pow2(k) == 0
  {
    PairDistance(base, h, k);
    hide Pow2;
    var x, m := base + h, Pow2(k);
    if x / m % 2 == 0 {
      EvenMultiple(x, m);
      assert base + (h + m) == x + m;
    } else {
      OddMultiple(x, m);
      assert base + (h - m) == x - m;
    }
  }

  lemma HalfFactor(q: nat, m: nat)
    requires q % 2 == 0
    ensures q * m == q / 2 * (2 * m)
  {
    DoubleProduct(q / 2, m);
    MulRearrange(q / 2, 2, 0, m);
  }

  /** An aligned block of a larger order that meets an aligned block of order k contains it. */
  lemma LargerContains(t: nat, j: nat, l: nat, k: nat, p: nat)
    requires k <= j && t % Pow2(j) == 0 && l % Pow2(k) == 0
    requires t <= p < t + Pow2(j) && l <= p < l + Pow2(k)
    ensures t <= l && l + Pow2(k) <= t + Pow2(j)
  {
    Divisible(t, k, j);
    DivUnique(Pow2(j), Pow2(j), 1, 0);
    Divisible(Pow2(j), k, j);
    AlignedSum(t, Pow2(j), Pow2(k));
    if l < t {
      AlignedGap(l, t, Pow2(k));
    }
    if t + Pow2(j) < l + Pow2(k) {
      if l < t + Pow2(j) {
        AlignedGap(l, t + Pow2(j), Pow2(k));
      }
    }
  }

  /** The buddy of a block is itself a block head, of no larger order: the descriptor that a merge
      consults is never one left stale inside a larger block. */
  lemma BuddyIsHead(b: Blocks, base: nat, n: nat, h: nat)
    requires Tiles(b, n) && Aligned(b, base) && h in b
    requires 0 <= BuddyPage(base, h, b[h].order) < n
    ensures BuddyPage(base, h, b[h].order) in b
    ensures b[BuddyPage(base, h, b[h].order)].order <= b[h].order
  {
    hide Pow2, Covered, BuddyPage;
    var k := b[h].order;
    var g := BuddyPage(base, h, k);
    PairAligned(base, h, k);
    PairDistance(base, h, k);
    var t := BlockOf(b, n, g);
    var j := b[t].order;
    var low := if h < g then h else g;
    if j > k {
      LargerContains(base + t, j, base + low, k + 1, base + g);
    } else if t < g {
      Divisible(base + g, j, k);
      AlignedGap(base + t, base + g, Pow2(j));
    }
  }

  // ----- Splitting and merging ----------------------------------------------------------------

  /** The block at h, of order k + 1, cut in two; the upper half is free. */
  function SplitBlock(b: Blocks, h: nat, k: nat): Blocks {
    b[h := Tile(k, false)][h + Pow2(k) := Tile(k, true)]
  }

  lemma SplitApart(b: Blocks, h: nat, k: nat)
    requires Apart(b) && h in b && b[h].order == k + 1
    ensures Apart(SplitBlock(b, h, k)) && h + Pow2(k) !in b
  {
    var c, g := SplitBlock(b, h, k), h + Pow2(k);
    assert End(b, h) == g + Pow2(k);
    forall x, y | x in c && y in c && x < y
      ensures End(c, x) <= y
    {
      if x != h && x != g {
        assert End(b, x) <= (if y == g then h else y);
      } else if y != g {
        assert End(b, h) <= y;
      }
    }
  }

  lemma SplitTiles(b: Blocks, n: nat, h: nat, k: nat)
    requires Tiles(b, n) && h in b && b[h].order == k + 1
    ensures Tiles(SplitBlock(b, h, k), n)
  {
    var c, g := SplitBlock(b, h, k), h + Pow2(k);
    SplitApart(b, h, k);
    assert End(b, h) == g + Pow2(k);
    forall p: nat | p < n
      ensures Covered(c, p)
    {
      var t := BlockOf(b, n, p);
      var t' := if t != h then t else if p < g then h else g;
      assert Covers(c, t', p);
    }
  }

  lemma SplitAligned(b: Blocks, base: nat, h: nat, k: nat)
    requires Aligned(b, base) && h in b && b[h].order == k + 1
    ensures Aligned(SplitBlock(b, h, k), base)
  {
    Divisible(base + h, k, k + 1);
    DivUnique(Pow2(k), Pow2(k), 1, 0);
    AlignedSum(base + h, Pow2(k), Pow2(k));
  }

  lemma SplitCoalesced(b: Blocks, base: nat, n: nat, h: nat, k: nat)
    requires Coalesced(b, base, n) && BuddyPage(base, h + Pow2(k), k) == h
    ensures Coalesced(SplitBlock(b, h, k), base, n)
  {
    var c, g := SplitBlock(b, h, k), h + Pow2(k);
    forall x: nat, j: nat | FreePair(c, base, x, j) && j < MAX_ORDER
      ensures x + Pow2(j) + Pow2(j) >= n
    {
      assert x != h && x != g && x + Pow2(j) != h && x + Pow2(j) != g;
      assert FreePair(b, base, x, j);
    }
  }

  lemma SplitKeeps(b: Blocks, base: nat, n: nat, h: nat, k: nat)
    requires Sound(b, base, n) && h in b && b[h] == Tile(k + 1, false)
    ensures Sound(SplitBlock(b, h, k), base, n)
    ensures h + Pow2(k) !in b
  {
    SplitTiles(b, n, h, k);
    SplitApart(b, h, k);
    SplitAligned(b, base, h, k);
    UpperHalf(base, h, k);
    SplitCoalesced(b, base, n, h, k);
  }

  /** The upper half of an aligned block has the lower half as its buddy. */
  lemma UpperHalf(base: nat, h: nat, k: nat)
    requires (base + h) % Pow2(k + 1) == 0
    ensures BuddyPage(base, h, k) == h + Pow2(k) && BuddyPage(base, h + Pow2(k), k) == h
  {
    var m, x := Pow2(k), base + h;
    DivDiv(x, m, 2);
    NoRemainder(x / m % 2, m, x % m);
    Divisible(x, k, k + 1);
    PairAligned(base, h, k);
  }

  /** The blocks at h and g, of order k, replaced by the aligned block they make up. */
  function MergeBlocks(b: Blocks, h: nat, g: nat, k: nat): Blocks {
    (b - {h, g})[(if h < g then h else g) := Tile(k + 1, false)]
  }

  lemma MergeApart(b: Blocks, h: nat, g: nat, k: nat)
    requires Apart(b) && h in b && g in b && b[h].order == k && b[g].order == k
    requires g == h + Pow2(k) || h == g + Pow2(k)
    ensures Apart(MergeBlocks(b, h, g, k))
  {
    var c, low, high := MergeBlocks(b, h, g, k), if h < g then h else g, if h < g then g else h;
    assert End(c, low) == End(b, high) && End(b, low) == high;
    forall x, y | x in c && y in c && x < y
      ensures End(c, x) <= y
    {
      if x == low {
        assert End(b, low) <= y;
        assert End(b, high) <= y;
      } else {
        assert End(b, x) <= y;
      }
    }
  }

  lemma MergeTiles(b: Blocks, n: nat, h: nat, g: nat, k: nat)
    requires Tiles(b, n) && h in b && g in b && b[h].order == k && b[g].order == k
    requires g == h + Pow2(k) || h == g + Pow2(k)
    ensures Tiles(MergeBlocks(b, h, g, k), n)
  {
    var c, low, high := MergeBlocks(b, h, g, k), if h < g then h else g, if h < g then g else h;
    MergeApart(b, h, g, k);
    assert End(c, low) == End(b, high) && End(b, low) == high;
    forall p: nat | p < n
      ensures Covered(c, p)
    {
      var t := BlockOf(b, n, p);
      var t' := if t == high then low else t;
      assert Covers(c, t', p);
    }
  }

  lemma MergeAligned(b: Blocks, base: nat, h: nat, g: nat, k: nat)
    requires Aligned(b, base) && k < MAX_ORDER
    requires h in b && b[h].order == k && g in b && g == BuddyPage(base, h, k)
    ensures Aligned(MergeBlocks(b, h, g, k), base)
  {
    hide Pow2, BuddyPage;
    PairDistance(base, h, k);
    PairAligned(base, h, k);
    var c, low := MergeBlocks(b, h, g, k), if h < g then h else g;
    forall x | x in c
      ensures c[x].order <= MAX_ORDER && (base + x) % Pow2(c[x].order) == 0
    {
      if x != low {
        assert c[x] == b[x];
      }
    }
  }

  lemma MergeCoalesced(b: Blocks, base: nat, n: nat, h: nat, g: nat, k: nat)
    requires Coalesced(b, base, n)
    ensures Coalesced(MergeBlocks(b, h, g, k), base, n)
  {
    var c := MergeBlocks(b, h, g, k);
    forall x: nat, j: nat | FreePair(c, base, x, j) && j < MAX_ORDER
      ensures x + Pow2(j) + Pow2(j) >= n
    {
      assert FreePair(b, base, x, j);
    }
  }

  /** A block that is not free may absorb its free buddy. */
  lemma MergeKeeps(b: Blocks, base: nat, n: nat, h: nat, g: nat, k: nat)
    requires Sound(b, base, n) && k < MAX_ORDER
    requires h in b && b[h] == Tile(k, false) && g == BuddyPage(base, h, k)
    requires g in b && b[g] == Tile(k, true)
    ensures Sound(MergeBlocks(b, h, g, k), base, n)
  {
    MergeTiles(b, n, h, g, k);
    MergeAligned(b, base, h, g, k);
    MergeCoalesced(b, base, n, h, g, k);
  }

  /** Whether the source's merge loop goes on at the block h. */
  predicate CanMerge(b: Blocks, base: nat, n: nat, h: nat)
    requires h in b
  {
    var k := b[h].order;
    var g := BuddyPage(base, h, k);
    k < MAX_ORDER && BuddyInPool(base, n, h, k) && g in b && b[g] == Tile(k, true)
  }

  lemma RemarkTiles(b: Blocks, base: nat, n: nat, h: nat, free: bool)
    requires Tiles(b, n) && h in b
    ensures Tiles(b[h := Tile(b[h].order, free)], n)
  {
    var c := b[h := Tile(b[h].order, free)];
    forall p: nat | p < n
      ensures Covered(c, p)
    {
      var t := BlockOf(b, n, p);
      assert Covers(c, t, p);
    }
  }

  /** A block that cannot merge any further may be marked free. */
  lemma MarkFreeKeeps(b: Blocks, base: nat, n: nat, h: nat)
    requires Sound(b, base, n) && h in b && !b[h].free && !CanMerge(b, base, n, h)
    ensures Sound(b[h := Tile(b[h].order, true)], base, n)
  {
    hide Pow2, Covered, BuddyPage;
    RemarkTiles(b, base, n, h, true);
    var c := b[h := Tile(b[h].order, true)];
    forall x: nat, j: nat | FreePair(c, base, x, j) && j < MAX_ORDER
      ensures x + Pow2(j) + Pow2(j) >= n
    {
      PairDistance(base, x, j);
      PairAligned(base, x, j);
      if x != h && x + Pow2(j) != h {
        assert FreePair(b, base, x, j);
      }
    }
  }

  /** A free block may be marked allocated. */
  lemma MarkAllocatedKeeps(b: Blocks, base: nat, n: nat, h: nat)
    requires Sound(b, base, n) && h in b
    ensures Sound(b[h := Tile(b[h].order, false)], base, n)
  {
    RemarkTiles(b, base, n, h, false);
    var c := b[h := Tile(b[h].order, false)];
    forall x: nat, j: nat | FreePair(c, base, x, j) && j < MAX_ORDER
      ensures x + Pow2(j) + Pow2(j) >= n
    {
      assert FreePair(b, base, x, j);
    }
  }
}
