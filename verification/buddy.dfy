/** The buddy system of os-l1/kernel/src/pmm.c, over the descriptor array, the intrusive free lists
    and absolute addresses, as the source keeps them. Ghost fields `blocks` and `lists` say what the
    descriptors and links stand for. */
module Buddy {
  import opened Bits
  import opened FreeLists
  import opened IntrusiveList
  import opened Sequences
  import opened Tiling
  import opened Wrappers

  const PAGE_SHIFT: nat := 12
  const PAGE_SIZE: nat := 4096
  /** The largest page count for which the `int` product `index * PAGE_SIZE` does not overflow. */
  const MAX_PAGES: nat := 0x8_0000

  /** The largest request, 2^63; beyond it the shift of `align_size` would run to zero and its loop
      would never end. */
  const MAX_REQUEST: nat := 0x8000_0000_0000_0000

  lemma PageSize()
    ensures Pow2(PAGE_SHIFT) == PAGE_SIZE && Pow2(3) == 8
  {}

  lemma LargestRequest(k: nat)
    requires k == 32
    ensures Pow2(2 * k - 1) == MAX_REQUEST
  {
    DoublePower(8, 256);
    DoublePower(16, 0x1_0000);
    DoublePower(k, 0x1_0000_0000);
  }

  /** The block order that holds `size` bytes: the smallest power of two of pages. */
  ghost predicate FitsOrder(size: nat, k: nat) {
    size <= Pow2(k) * PAGE_SIZE && (k > 0 ==> Pow2(k - 1) * PAGE_SIZE < size)
  }

  /** `align_size`: the smallest power of two not below the size, at least 8. */
  method AlignSize(size: nat) returns (ret: nat, ghost k: nat)
    requires size <= MAX_REQUEST
    ensures ret == Pow2(k) && 3 <= k <= 63 && size <= ret
    ensures k > 3 ==> Pow2(k - 1) < size
  {
    ret, k := 1, 0;
    LargestRequest(32);
    while ret < size
      invariant ret == Pow2(k) && k <= 63
      invariant k > 0 ==> Pow2(k - 1) < size
    {
      ret, k := 2 * ret, k + 1;
    }
    PageSize();
    if ret <= 8 {
      if k < 3 {
        Pow2Mono(k, 2);
      }
      ret, k := 8, 3;
    }
  }

  /** `buddy_block_order`. */
  method BlockOrder(pages: nat) returns (order: nat)
    requires pages <= MAX_REQUEST / PAGE_SIZE
    ensures pages <= Pow2(order) && order <= 51
    ensures order > 0 ==> Pow2(order - 1) < pages
  {
    hide Pow2;
    order := 0;
    LargestRequest(32);
    RoundedPages(MAX_REQUEST, 63);
    while Pow2(order) < pages
      invariant order <= 51
      invariant order > 0 ==> Pow2(order - 1) < pages
      decreases 51 - order
    {
      order := order + 1;
    }
  }

  /** `sizeof(buddy_block_t)`. */
  const DESCRIPTOR_SIZE: nat := 32

  /** `ALIGN(addr, PAGE_SIZE)`. */
  function Align(addr: nat): nat {
    (addr + PAGE_SIZE - 1) / PAGE_SIZE * PAGE_SIZE
  }

  /** Where the descriptors end, one for every page of the whole area. */
  function DescriptorsEnd(areaStart: nat, areaEnd: nat): nat
    requires areaStart <= areaEnd
  {
    areaStart + (areaEnd - areaStart) / PAGE_SIZE * DESCRIPTOR_SIZE
  }

  lemma AlignUp(addr: nat, limit: nat)
    requires addr <= limit && limit % PAGE_SIZE == 0
    ensures Align(addr) % PAGE_SIZE == 0 && addr <= Align(addr) <= limit && Align(addr) < addr + PAGE_SIZE
  {
    var q, l := (addr + PAGE_SIZE - 1) / PAGE_SIZE, limit / PAGE_SIZE;
    assert limit == l * PAGE_SIZE;
    assert q <= l;
  }

  lemma DescriptorsFit(areaStart: nat, areaEnd: nat)
    requires areaStart <= areaEnd
    ensures areaStart <= DescriptorsEnd(areaStart, areaEnd) <= areaEnd
  {}

  lemma WholePages(x: nat, lower: nat, upper: nat)
    requires lower <= x <= upper && x % PAGE_SIZE == 0 && upper % PAGE_SIZE == 0
    ensures x + (upper - x) / PAGE_SIZE * PAGE_SIZE == upper
    ensures (upper - x) / PAGE_SIZE <= (upper - lower) / PAGE_SIZE
  {
    assert (upper - x) % PAGE_SIZE == 0;
  }

  /** The pages left for allocation behind the descriptors. */
  method PoolArea(areaStart: nat, areaEnd: nat) returns (poolStart: nat, pages: nat)
    requires areaStart % PAGE_SIZE == 0 && areaEnd % PAGE_SIZE == 0 && areaStart <= areaEnd
    ensures DescriptorsEnd(areaStart, areaEnd) <= poolStart && poolStart % PAGE_SIZE == 0
    ensures poolStart < DescriptorsEnd(areaStart, areaEnd) + PAGE_SIZE && poolStart + pages * PAGE_SIZE == areaEnd
    ensures areaStart + 32 * pages <= poolStart && pages <= (areaEnd - areaStart) / PAGE_SIZE
    ensures poolStart < areaStart + (areaEnd - areaStart) / 4096 * 32 + 4096
  {
    DescriptorsFit(areaStart, areaEnd);
    assert DescriptorsEnd(areaStart, areaEnd) == areaStart + (areaEnd - areaStart) / 4096 * 32;
    hide Align, DescriptorsEnd;
    AlignUp(DescriptorsEnd(areaStart, areaEnd), areaEnd);
    poolStart := Align(DescriptorsEnd(areaStart, areaEnd));
    pages := (areaEnd - poolStart) / PAGE_SIZE;
    WholePages(poolStart, areaStart, areaEnd);
  }

  class BuddyPool {
    /** `pool_meta_data`: where the descriptors begin, 32 bytes for every page. */
    const descriptors: nat
    const start: nat
    const pages: nat
    const order: array<nat>
    const free: array<bool>
    const slab: array<bool>
    const nrFree: array<int>
    const links: Links
    var locked: bool
    ghost var blocks: Blocks
    ghost var lists: seq<seq<nat>>

    /** `buddy_pool_init`: the descriptors take the front of the area, 32 bytes a page; the rest is
        freed page by page. */
    constructor (areaStart: nat, areaEnd: nat)
      requires areaStart % PAGE_SIZE == 0 && areaEnd % PAGE_SIZE == 0 && areaStart <= areaEnd
      requires (areaEnd - areaStart) / 4096 <= 0x8_0000
      ensures Valid() && fresh(Footprint()) && fresh(slab)
      ensures DescriptorsEnd(areaStart, areaEnd) <= start < DescriptorsEnd(areaStart, areaEnd) + PAGE_SIZE
      ensures descriptors == areaStart
      ensures areaStart + 32 * pages <= start < areaStart + (areaEnd - areaStart) / 4096 * 32 + 4096
      ensures start % 4096 == 0 && start + pages * 4096 == areaEnd
      ensures !locked && Live() == map[]
      ensures slab[..] == seq(pages, p => false)
    {
      hide Working, LiveBlocks, Ring, DescriptorsEnd;
      var poolStart, n := PoolArea(areaStart, areaEnd);
      descriptors := areaStart;
      start := poolStart;
      pages := n;
      order := new nat[n](i => 0);
      free := new bool[n](i => false);
      slab := new bool[n](i => false);
      nrFree := new int[LISTS](i => 0);
      links := new Links(n + LISTS);
      locked := false;
      blocks := EveryPage(n);
      lists := seq(LISTS, i => []);
      new;
      Initialised();
      FreeAll();
    }

    /** The second loop of `buddy_pool_init`: frees every page. */
    method FreeAll()
      requires Valid() && !locked && forall p: nat :: p in Live() <==> p < pages
      modifies Footprint()
      ensures Valid() && !locked && Live() == map[] && slab[..] == old(slab[..])
    {
      hide Working, LiveBlocks;
      var page: nat := 0;
      while page < pages
        invariant page <= pages && Valid() && !locked
        invariant forall p: nat :: p in Live() <==> page <= p < pages
        invariant slab[..] == old(slab[..])
      {
        ListRing(0);
        AddrRoundTrip(page);
        BuddyFree(Block2Addr(page));
        page := page + 1;
      }
      assert Live().Keys == {};
    }

    ghost predicate Blank()
      requires Geometry()
      reads links, order, free, nrFree, links.next, links.prev
    {
      && (forall p | 0 <= p < pages :: order[p] == 0 && !free[p])
      && (forall k | 0 <= k < LISTS :: nrFree[k] == 0)
      && (forall x | 0 <= x < pages + LISTS :: Ring(links.next[..], links.prev[..], x, []))
    }

    /** With every page allocated on its own and every list empty, all is in order. */
    lemma Initialised()
      requires Geometry() && blocks == EveryPage(pages) && lists == seq(LISTS, i => [])
      requires Blank()
      ensures Valid()
      ensures forall p: nat :: p in Live() <==> p < pages
    {
      SinglePages(blocks, Base(), pages);
    }

    /** `pool_end_addr`. */
    function End(): nat {
      start + pages * PAGE_SIZE
    }

    /** The absolute number of the first page. */
    ghost function Base(): nat {
      start / PAGE_SIZE
    }

    ghost function Footprint(): set<object> {
      {this, order, free, nrFree, links.next, links.prev}
    }

    ghost predicate Geometry()
      reads links
    {
      && start % PAGE_SIZE == 0 && pages <= MAX_PAGES && descriptors + pages * DESCRIPTOR_SIZE <= start
      && order.Length == free.Length == slab.Length == pages && nrFree.Length == LISTS
      && links.Valid() && links.next.Length == pages + LISTS
      && order != links.next && order != links.prev && free != slab
      && nrFree as object != order && nrFree as object != links.next && nrFree as object != links.prev
    }

    /** The descriptors of block heads are accurate, but for the free mark of the block a merge is
        working on. Nothing is said of descriptors inside a block. */
    ghost predicate Described(working: int)
      requires Geometry()
      reads this`blocks, links, order, free
    {
      forall h | h in blocks ::
        h < pages && order[h] == blocks[h].order && (h != working ==> free[h] == blocks[h].free)
    }

    ghost predicate Linked()
      requires Geometry()
      reads this`lists, links, links.next, links.prev, nrFree
    {
      && AllRings(links.next[..], links.prev[..], pages, lists)
      && (forall k | 0 <= k < LISTS :: nrFree[k] == |lists[k]|)
    }

    ghost predicate Working(working: int)
      reads this`blocks, this`lists, links, order, free, nrFree, links.next, links.prev
    {
      && Geometry()
      && Sound(blocks, Base(), pages)
      && Listed(blocks, lists)
      && Described(working)
      && Linked()
    }

    ghost predicate Valid()
      reads this`blocks, this`lists, links, order, free, nrFree, links.next, links.prev
    {
      Working(-1)
    }

    /** The allocated blocks: first page and order. */
    ghost function Live(): map<nat, nat>
      reads this`blocks
    {
      LiveBlocks(blocks)
    }

    /** `block2addr`, a descriptor being named by its index. */
    function Block2Addr(block: nat): nat {
      block * PAGE_SIZE + start
    }

    /** `addr2block`, which panics on an address off a page boundary. */
    function Addr2Block(addr: nat): nat
      requires addr >= start && addr % PAGE_SIZE == 0
    {
      (addr - start) / PAGE_SIZE
    }

    lemma AddrRoundTrip(block: nat)
      requires start % PAGE_SIZE == 0
      ensures Block2Addr(block) % PAGE_SIZE == 0 && Addr2Block(Block2Addr(block)) == block
      ensures Block2Addr(block) == (Base() + block) * PAGE_SIZE
    {}

    lemma HeadDescribed(block: nat)
      requires Valid() && block in blocks
      ensures block < pages == order.Length && order[block] == blocks[block].order <= MAX_ORDER
      ensures (Base() + block) % Pow2(order[block]) == 0 && |lists| == LISTS
      ensures Working(block) && (!blocks[block].free ==> Live() == Live()[block := order[block]])
    {}

    lemma ListRing(k: nat)
      requires Valid() && k < LISTS
      ensures Geometry() && |lists| == LISTS && Ring(links.next[..], links.prev[..], pages + k, lists[k])
    {}

    lemma ListsMatch()
      requires Valid()
      ensures Sound(blocks, Base(), pages) && Listed(blocks, lists) && start % PAGE_SIZE == 0
    {}

    lemma WorkingDescribed(block: nat)
      requires Working(block) && block in blocks
      ensures Geometry() && block < pages && order[block] == blocks[block].order <= MAX_ORDER
      ensures (Base() + block) % Pow2(order[block]) == 0
    {}

    /** The flipped address is the buddy page's, and the range test on it is `BuddyInPool`. */
    lemma BuddyAddr(block: nat, k: nat)
      requires Geometry() && (Base() + block) % Pow2(k) == 0
      ensures Xor(Block2Addr(block), Pow2(k + PAGE_SHIFT)) == start + BuddyPage(Base(), block, k) * PAGE_SIZE
      ensures var a := Xor(Block2Addr(block), Pow2(k + PAGE_SHIFT));
              (a < start || a + Pow2(k + PAGE_SHIFT) >= End()) <==> !BuddyInPool(Base(), pages, block, k)
    {
      AddrRoundTrip(block);
      BuddyAddress(Base(), block, k);
    }

    /** `get_buddy_chunk`: flips one bit of the block's absolute address. */
    method GetBuddyChunk(block: nat) returns (buddy: Option<nat>)
      requires Geometry() && block < pages && (Base() + block) % Pow2(order[block]) == 0
      ensures buddy == if BuddyInPool(Base(), pages, block, order[block])
                       then Some(BuddyPage(Base(), block, order[block])) else None
      ensures var o := Pow2(order[block]);
              var g := if (start / 4096 + block) / o % 2 == 0 then block + o else block - o;
              buddy == if 0 <= g && g + o < pages then Some(g) else None
    {
      hide Xor, BuddyPage, BuddyInPool;
      BuddyMeans(start / 4096, pages, block, order[block]);
      var k := order[block];
      var addr := Block2Addr(block);
      var buddyAddr := Xor(addr, Pow2(k + PAGE_SHIFT));
      BuddyAddr(block, k);
      if buddyAddr < start || buddyAddr + Pow2(k + PAGE_SHIFT) >= End() {
        return None;
      }
      AddrRoundTrip(BuddyPage(Base(), block, k));
      buddy := Some(Addr2Block(buddyAddr));
    }

    /** Takes the page at a given place off its list. */
    method Unlink(k: nat, page: nat, ghost i: nat)
      requires Geometry() && Linked() && k < LISTS && i < |lists[k]| && page == lists[k][i]
      modifies links.next, links.prev, nrFree, this`lists
      ensures Linked() && lists == old(lists)[k := Without(old(lists[k]), i)]
    {
      RemoveKeepsRings(links.next[..], links.prev[..], pages, lists, k, i);
      links.ListDel(page);
      nrFree[k] := nrFree[k] - 1;
      lists := lists[k := Without(lists[k], i)];
    }

    /** Puts a page at the front of a list. */
    method Link(k: nat, page: nat)
      requires Geometry() && Linked() && k < LISTS && page < pages
      requires forall j | 0 <= j < LISTS :: page !in lists[j]
      modifies links.next, links.prev, nrFree, this`lists
      ensures Linked() && lists == Pushed(old(lists), k, page)
    {
      PushKeepsRings(links.next[..], links.prev[..], pages, lists, k, page);
      links.ListAdd(page, pages + k);
      nrFree[k] := nrFree[k] + 1;
      lists := Pushed(lists, k, page);
    }

    lemma HalfAddresses(block: nat, k: nat)
      requires start % PAGE_SIZE == 0
      ensures var left, right := Block2Addr(block), Block2Addr(block) + Pow2(k + PAGE_SHIFT);
              && left % PAGE_SIZE == 0 && Addr2Block(left) == block
              && right % PAGE_SIZE == 0 && Addr2Block(right) == block + Pow2(k)
    {
      PageProducts(0, k);
      AddrRoundTrip(block);
      AddrRoundTrip(block + Pow2(k));
    }

    /** The descriptors of the two halves of a split block. */
    method DescribeHalves(left: nat, right: nat, k: nat)
      requires Geometry() && Described(-1) && left < right < pages
      requires left in blocks && blocks[left] == Tile(k + 1, false)
      modifies order, free, this`blocks
      ensures blocks == old(blocks)[left := Tile(k, false)][right := Tile(k, true)] && Described(-1)
    {
      blocks := blocks[left := Tile(k, false)][right := Tile(k, true)];
      order[left] := k;
      order[right] := k;
      free[left] := false;
      free[right] := true;
    }

    /** `split2buddies`: the lower half keeps the descriptor, the upper half goes on its list. */
    method Split2Buddies(old_: nat, newOrder: nat) returns (left: nat)
      requires Valid() && old_ in blocks && blocks[old_] == Tile(newOrder + 1, false)
      modifies Footprint() - {this}, this`blocks, this`lists
      ensures Valid() && left == old_
      ensures blocks == SplitBlock(old(blocks), old_, newOrder)
      ensures Live() == old(Live())[old_ := newOrder]
      ensures lists == Pushed(old(lists), newOrder, old_ + Pow2(newOrder))
    {
      hide Ring, Sound, LiveBlocks;
      SplitKeeps(blocks, Base(), pages, old_, newOrder);
      HalvesInside(blocks, Base(), pages, old_, newOrder);
      SplitLive(blocks, old_, newOrder);
      var leftAddr := Block2Addr(old_);
      var rightAddr := leftAddr + Pow2(newOrder + PAGE_SHIFT);
      HalfAddresses(old_, newOrder);
      left := Addr2Block(leftAddr);
      var right := Addr2Block(rightAddr);
      hide Block2Addr, Addr2Block, Described, Linked;
      DescribeHalves(left, right, newOrder);
      Link(newOrder, right);
    }

    /** One round of the split loop. */
    method HalveOnce(block: nat, k: nat, ghost live0: map<nat, nat>, ghost lists0: seq<seq<nat>>, ghost top: nat)
      returns (left: nat)
      requires Valid() && block in blocks && blocks[block] == Tile(k + 1, false) && k < top <= |lists|
      requires Live() == live0[block := k + 1] && HalvesPushed(lists0, lists, block, k + 1, top)
      modifies Footprint() - {this}, this`blocks, this`lists
      ensures Valid() && left == block && block in blocks && blocks[block] == Tile(k, false)
      ensures |lists| == old(|lists|)
      ensures Live() == live0[block := k] && HalvesPushed(lists0, lists, block, k, top)
    {
      hide Working, HalvesPushed;
      HalvesStep(lists0, lists, block, k, top);
      left := Split2Buddies(block, k);
      assert live0[block := k + 1][block := k] == live0[block := k];
    }

    /** `buddy_system_split`: halves the block until it has the target order. */
    method BuddySystemSplit(block: nat, targetOrder: nat) returns (ret: nat)
      requires Valid() && block in blocks && !blocks[block].free && targetOrder <= blocks[block].order
      modifies Footprint() - {this}, this`blocks, this`lists
      ensures Valid() && ret == block
      ensures Live() == old(Live())[block := targetOrder]
      ensures HalvesPushed(old(lists), lists, block, targetOrder, old(blocks[block].order))
    {
      hide Working, HalvesPushed, LiveBlocks;
      ret := block;
      HeadDescribed(block);
      var k: nat := order[block];
      ghost var live0, lists0, top := Live(), lists, k;
      HalvesNone(lists0, block, k);
      while k > 0 && k >= targetOrder + 1
        invariant Valid() && ret == block && block in blocks && blocks[block] == Tile(k, false)
        invariant targetOrder <= k <= top <= |lists|
        invariant Live() == live0[block := k] && HalvesPushed(lists0, lists, block, k, top)
      {
        k := k - 1;
        ret := HalveOnce(ret, k, live0, lists0, top);
      }
    }

    /** Whether the merge loop goes on, read from the descriptor at the buddy's address. That
        descriptor is accurate because the buddy of a block is a block head. */
    lemma BuddyDescribed(block: nat)
      requires Working(block) && block in blocks
      requires BuddyInPool(Base(), pages, block, blocks[block].order)
      ensures var g := BuddyPage(Base(), block, blocks[block].order);
              g in blocks && g < pages && g != block && free[g] == blocks[g].free && order[g] == blocks[g].order
    {
      BuddyIsHead(blocks, Base(), pages, block);
    }

    /** The descriptor of the merged block; the other half's goes stale. */
    method DescribeMerged(block: nat, buddy: nat, k: nat) returns (merged: nat)
      requires Geometry() && Described(block) && block in blocks && buddy in blocks && block != buddy
      modifies order, free, this`blocks
      ensures Described(merged) && merged == if block < buddy then block else buddy
      ensures blocks == MergeBlocks(old(blocks), block, buddy, k)
    {
      merged := block;
      if block > buddy {
        merged := buddy;
      }
      order[merged] := k + 1;
      free[merged] := true;
      blocks := MergeBlocks(blocks, block, buddy, k);
    }

    /** One round of the merge loop: the working block absorbs its free buddy. */
    method Absorb(block: nat, buddy: nat, k: nat) returns (merged: nat)
      requires Working(block) && block in blocks && blocks[block] == Tile(k, false) && k < MAX_ORDER
      requires buddy in blocks && blocks[buddy] == Tile(k, true) && buddy == BuddyPage(Base(), block, k)
      modifies Footprint() - {this}, this`blocks, this`lists
      ensures Working(merged) && merged in blocks && blocks[merged] == Tile(k + 1, false)
      ensures merged == if block < buddy then block else buddy
      ensures blocks == MergeBlocks(old(blocks), block, buddy, k)
    {
      hide Described, Linked, Sound, BuddyPage;
      MergeKeeps(blocks, Base(), pages, block, buddy, k);
      ghost var i := ListIndex(blocks, lists, buddy, k);
      ListDistinct(k);
      hide Listed, MergeBlocks;
      Unlink(k, buddy, i);
      merged := DescribeMerged(block, buddy, k);
      Merged(old(blocks), block, buddy, k);
    }

    lemma ListDistinct(k: nat)
      requires Geometry() && Linked() && k < LISTS
      ensures |lists| == LISTS && Distinct(lists[k])
    {}

    /** In a valid pool each block lies in the pool and is aligned to its size in absolute pages, and the next one does
        not begin before its end. */
    lemma BlockPlaced(h: nat, g: nat)
      requires Valid() && h in blocks && g in blocks
      ensures h + Pow2(blocks[h].order) <= pages && blocks[h].order <= 12
      ensures (start / 4096 + h) % Pow2(blocks[h].order) == 0 && (h < g ==> h + Pow2(blocks[h].order) <= g)
      ensures descriptors + 32 * pages <= start && start % 4096 == 0
    {
      hide Ring, Listed, AllRings, Covered, Coalesced;
    }

    /** No two free buddies are left but at the end of the pool. */
    lemma PairsMerged(h: nat, k: nat)
      requires Valid() && k < 12 && h in blocks && blocks[h] == Tile(k, true)
      requires h + Pow2(k) in blocks && blocks[h + Pow2(k)] == Tile(k, true) && (start / 4096 + h) / Pow2(k) % 2 == 0
      ensures h + Pow2(k) + Pow2(k) >= pages
    {
      hide Ring, Listed, AllRings, Tiles, Aligned;
      assert FreePair(blocks, Base(), h, k);
    }

    /** And leave no gap. */
    lemma PageInBlock(p: nat) returns (h: nat)
      requires Valid() && p < pages
      ensures h in blocks && h <= p < h + Pow2(blocks[h].order)
    {
      assert Covered(blocks, p);
      h :| Covers(blocks, h, p);
    }

    /** The descriptor of every block is accurate, and the list of each order is a ring of exactly its free blocks. */
    lemma ListsDescribe()
      requires Valid()
      ensures |lists| == 13
      ensures forall k, p: nat | 0 <= k < 13 :: p in lists[k] <==> p in blocks && blocks[p] == Tile(k, true)
      ensures forall h | h in blocks :: h < pages && order[h] == blocks[h].order && free[h] == blocks[h].free
      ensures forall k | 0 <= k < 13 ::
                nrFree[k] == |lists[k]| && Ring(links.next[..], links.prev[..], pages + k, lists[k])
    {
      hide Ring, Sound;
    }

    /** What `nr_free` and the lists account for. */
    lemma PoolConserved()
      requires Valid()
      ensures FreePages(lists) + AllocatedPages(blocks, pages) == pages
      ensures forall k | 0 <= k < LISTS :: nrFree[k] == |lists[k]|
    {
      forall k: nat | k < LISTS
        ensures Distinct(lists[k])
      {
        ListDistinct(k);
      }
      Conservation(blocks, Base(), pages, lists);
    }

    /** The free pages are those that lie in no allocated block. */
    lemma FreePagesCounted(s: set<nat>)
      requires Valid()
      requires forall x :: x in s <==>
                 x < pages && exists h: nat :: h in blocks && h <= x < h + Pow2(blocks[h].order) && !blocks[h].free
      ensures FreePages(lists) == pages - |s|
    {
      PoolConserved();
      FirstHead(blocks, pages);
      PagesCounted(blocks, pages, 0, false);
      hide Valid;
      assert s == PagesIn(blocks, 0, pages, false);
    }

    /** The end of the merge: the block goes on the free list of its order. */
    method Release(block: nat, k: nat)
      requires Working(block) && block in blocks && blocks[block] == Tile(k, false)
      requires !CanMerge(blocks, Base(), pages, block)
      modifies Footprint() - {this}, this`blocks, this`lists
      ensures Valid() && blocks == old(blocks)[block := Tile(k, true)]
      ensures k < |old(lists)| && lists == Pushed(old(lists), k, block)
    {
      MarkFreeKeeps(blocks, Base(), pages, block);
      MarkListed(blocks, lists, block, k);
      blocks := blocks[block := Tile(k, true)];
      order[block] := k;
      free[block] := true;
      Link(k, block);
    }

    /** `buddy_system_merge`: frees a block, merging it with its buddy while that is free and
        whole. */
    method BuddySystemMerge(block: nat)
      requires Valid() && block in blocks && !blocks[block].free
      modifies Footprint() - {this}, this`blocks, this`lists
      ensures Valid() && Live() == old(Live()) - {block}
      ensures blocks == Freed(old(blocks), Base(), pages, block)
    {
      hide Working, LiveBlocks, Freed;
      HeadDescribed(block);
      var b, k: nat := block, order[block];
      ghost var live0 := Live();
      while k < MAX_ORDER
        invariant Working(b) && b in blocks && blocks[b] == Tile(k, false) && k <= MAX_ORDER
        invariant LiveBlocks(blocks) - {b} == live0 - {block}
        invariant Freed(blocks, Base(), pages, b) == Freed(old(blocks), Base(), pages, block)
        decreases MAX_ORDER - k
      {
        WorkingDescribed(b);
        FreedStep(blocks, Base(), pages, b);
        var buddy := GetBuddyChunk(b);
        if buddy == None {
          break;
        }
        BuddyDescribed(b);
        if !free[buddy.value] || order[buddy.value] != k {
          break;
        }
        MergeLive(blocks, b, buddy.value, k);
        b := Absorb(b, buddy.value, k);
        k := k + 1;
      }
      WorkingDescribed(b);
      FreedStep(blocks, Base(), pages, b);
      FreeLive(blocks, b, k);
      Release(b, k);
    }

    /** `buddy_free`. */
    method BuddyFree(addr: nat)
      requires Valid() && !locked
      requires addr >= start && addr % PAGE_SIZE == 0 && Addr2Block(addr) in Live()
      modifies Footprint()
      ensures Valid() && !locked
      ensures Live() == old(Live()) - {Addr2Block(addr)}
      ensures blocks == Freed(old(blocks), Base(), pages, Addr2Block(addr))
    {
      locked := true;
      var block := Addr2Block(addr);
      BuddySystemMerge(block);
      locked := false;
    }

    /** Takes the first block off a non-empty list. */
    method TakeFirst(k: nat) returns (block: nat)
      requires Valid() && k < LISTS && lists[k] != []
      modifies Footprint() - {this}, this`blocks, this`lists
      ensures Valid() && block == old(lists[k][0])
      ensures block in old(blocks) && old(blocks)[block] == Tile(k, true)
      ensures block in blocks && blocks[block] == Tile(k, false)
      ensures Live() == old(Live())[block := k] && lists == old(lists)[k := old(lists[k])[1..]]
    {
      hide Sound, Ring, LiveBlocks, Separate;
      RingEmpty(links.next[..], links.prev[..], pages + k, lists[k]);
      block := links.next[pages + k];
      assert block in lists[k];
      ListDistinct(k);
      MarkAllocatedKeeps(blocks, Base(), pages, block);
      TakeListed(blocks, lists, block, k);
      Unlink(k, block, 0);
      blocks := blocks[block := Tile(k, false)];
      free[block] := false;
    }

    /** The body of the loop of `buddy_alloc` at the first non-empty list. */
    method Serve(need: nat, i: nat) returns (addr: Option<nat>)
      requires Valid() && need <= i < LISTS == |lists| && lists[i] != []
      requires forall j | need <= j < i :: lists[j] == []
      modifies Footprint()
      ensures Valid() && !locked && !NoneFree(old(blocks), need)
      ensures addr.Some? && addr.value >= start && addr.value % PAGE_SIZE == 0
      ensures Served(old(blocks), old(lists), blocks, lists, need, Addr2Block(addr.value), i)
    {
      hide Working, LiveBlocks, HalvesPushed, NoneFree;
      ListRing(0);
      var block := TakeFirst(i);
      FoundFree(old(blocks), i, need, block);
      ghost var top := lists;
      block := BuddySystemSplit(block, need);
      locked := false;
      AddrRoundTrip(block);
      addr := Some(Block2Addr(block));
    }

    /** The search of `buddy_alloc`: the first order from `need` on whose list is not empty. */
    method FirstNonEmpty(need: nat) returns (i: nat)
      requires Valid()
      ensures need <= i && |lists| == LISTS
      ensures i <= MAX_ORDER ==> lists[i] != []
      ensures forall j | need <= j < i && j < LISTS :: lists[j] == []
    {
      hide Working;
      ListRing(0);
      i := need;
      while i <= MAX_ORDER
        invariant need <= i
        invariant forall j | need <= j < i && j < LISTS :: lists[j] == []
      {
        ListRing(i);
        var empty := links.ListEmpty(pages + i, lists[i]);
        if !empty {
          return;
        }
        i := i + 1;
      }
    }

    /** `buddy_alloc`: the first block of the smallest order that has one, cut down to size. When no
        free block is large enough the source returns NULL with the global lock still held. */
    method BuddyAlloc(size: nat) returns (addr: Option<nat>, ghost k: nat, ghost from: nat)
      requires Valid() && !locked && size <= MAX_REQUEST
      modifies Footprint()
      ensures Valid() && FitsOrder(size, k)
      ensures size <= Pow2(k) * 4096 && (k > 0 ==> Pow2(k - 1) * 4096 < size)
      ensures addr == None <==> NoneFree(old(blocks), k)
      ensures addr == None <==> forall h | h in old(blocks) && old(blocks)[h].free :: old(blocks)[h].order < k
      ensures locked <==> addr == None
      ensures addr == None ==> blocks == old(blocks) && lists == old(lists)
      ensures addr.Some? ==> addr.value >= start && addr.value % PAGE_SIZE == 0
                             && Served(old(blocks), old(lists), blocks, lists, k, Addr2Block(addr.value), from)
    {
      hide Working, FitsOrder, NoneFree, Served, Live;
      locked := true;
      var rounded; ghost var j;
      rounded, j := AlignSize(size);
      RoundedPages(rounded, j);
      var need := BlockOrder(rounded / PAGE_SIZE);
      RequestOrder(size, j, need);
      k := need;
      NoneFreeMeans(blocks, k);
      var i := FirstNonEmpty(need);
      from := i;
      if i <= MAX_ORDER {
        addr := Serve(need, i);
        return;
      }
      addr := None;
      ListsMatch();
      NothingFree(blocks, lists, Base(), k);
    }

    /** A page of a pool of two pages, while some page is not live. */
    method AllocPage() returns (page: nat)
      requires Valid() && !locked && pages == 2 && (forall h | h in Live() :: Live()[h] == 0)
      requires exists p: nat :: p < 2 && p !in Live()
      modifies Footprint()
      ensures Valid() && !locked && page < 2 && page !in old(Live()) && Live() == old(Live())[page := 0]
    {
      hide Working, FitsOrder, NoneFree, LiveBlocks, HalvesPushed;
      ListsMatch();
      SomeFree(blocks, Base(), 2);
      var addr; ghost var k, from;
      addr, k, from := BuddyAlloc(PAGE_SIZE);
      PageOrders(k);
      page := Addr2Block(addr.value);
      ListsMatch();
      LiveInside(blocks, Base(), 2, page);
    }

    method AllocBoth()
      requires Valid() && !locked && pages == 2 && Live() == map[]
      modifies Footprint()
      ensures Valid() && !locked && blocks == Pages(false, false)
    {
      hide Working, LiveBlocks;
      assert 0 !in Live();
      var x := AllocPage();
      assert 1 - x !in Live();
      var y := AllocPage();
      assert Live() == map[0 := 0, 1 := 0];
      ListsMatch();
      BothTaken(blocks, Base());
    }

    method FreeBoth()
      requires Valid() && !locked && pages == 2 && Base() % 2 == 0 && blocks == Pages(false, false)
      modifies Footprint()
      ensures Valid() && !locked && blocks == Pages(true, true)
    {
      hide Working, Freed, Block2Addr, Addr2Block;
      ListsMatch();
      AddrRoundTrip(1);
      BuddyFree(Block2Addr(1));
      FreedAlone(Base());
      AddrRoundTrip(0);
      BuddyFree(Block2Addr(0));
      LastPairStays(Base());
    }

    /** Both pages of a pool of two pages that are buddies, taken and freed, page 0 last: the pool has two free pages
        and cannot serve a request of two pages. */
    method FreeLastPair() returns (addr: Option<nat>)
      requires Valid() && !locked && pages == 2 && Base() % 2 == 0 && Live() == map[]
      modifies Footprint()
      ensures Valid() && Live() == map[] && blocks == Pages(true, true)
      ensures addr == None && locked
    {
      hide Working, FitsOrder, NoneFree, Served;
      AllocBoth();
      FreeBoth();
      LastPairStays(Base());
      ghost var k, from;
      addr, k, from := BuddyAlloc(2 * PAGE_SIZE);
      PageOrders(k);
    }
  }

  /** Such a pool from boot: three pages, of which the descriptors take the first. */
  method LosePair(areaStart: nat) returns (pool: BuddyPool, addr: Option<nat>)
    requires areaStart % (2 * PAGE_SIZE) == PAGE_SIZE
    ensures fresh(pool) && pool.Valid() && pool.pages == 2 && pool.start == areaStart + PAGE_SIZE
    ensures pool.Live() == map[] && pool.blocks == Pages(true, true) && addr == None
  {
    pool := new BuddyPool(areaStart, areaStart + 3 * PAGE_SIZE);
    addr := pool.FreeLastPair();
  }

  /** What `buddy_alloc` does to serve a request of order k with the page `block`: the block was the
      first of the first non-empty list `from`, its live entry is new, and each halving has pushed
      one upper half. */
  ghost predicate Served(b: Blocks, lists: seq<seq<nat>>, b': Blocks, lists': seq<seq<nat>>,
                         k: nat, block: nat, from: nat) {
    && |lists| == LISTS && k <= from < LISTS
    && (forall j | k <= j < from :: lists[j] == [])
    && lists[from] != [] && block == lists[from][0]
    && HalvesPushed(lists[from := lists[from][1..]], lists', block, k, from)
    && block !in LiveBlocks(b) && LiveBlocks(b') == LiveBlocks(b)[block := k]
  }

  lemma NoneFreeMeans(b: Blocks, k: nat)
    ensures NoneFree(b, k) <==> forall h | h in b && b[h].free :: b[h].order < k
  {}

  lemma BuddyMeans(base: nat, n: nat, h: nat, k: nat)
    ensures BuddyPage(base, h, k) == if (base + h) / Pow2(k) % 2 == 0 then h + Pow2(k) else h - Pow2(k)
    ensures BuddyInPool(base, n, h, k) <==> 0 <= BuddyPage(base, h, k) && BuddyPage(base, h, k) + Pow2(k) < n
  {}

  /** What a served request is, in terms of the blocks and lists. */
  lemma ServedMeans(b: Blocks, lists: seq<seq<nat>>, b': Blocks, lists': seq<seq<nat>>, k: nat, block: nat, from: nat)
    requires Served(b, lists, b', lists', k, block, from)
    ensures k <= from < |lists| == |lists'| && lists[from] != [] && block == lists[from][0]
    ensures forall j | k <= j < from :: lists[j] == []
    ensures block in b' && b'[block] == Tile(k, false) && (block in b ==> b[block].free)
    ensures forall h | h != block :: (h in b' && !b'[h].free) <==> (h in b && !b[h].free)
    ensures forall h | h != block && h in b && !b[h].free :: b'[h].order == b[h].order
    ensures forall j: nat | j < |lists| ::
              lists'[j] == (if k <= j < from then [block + Pow2(j)] else [])
                           + (if j == from then lists[j][1..] else lists[j])
  {
    var live, live' := LiveBlocks(b), LiveBlocks(b');
    assert block in live' && live'[block] == k;
    forall h | h != block
      ensures (h in b' && !b'[h].free) <==> (h in b && !b[h].free)
      ensures h in b && !b[h].free ==> h in b' && b'[h].order == b[h].order
    {
      assert h in live' <==> h in live;
      assert h in live ==> live'[h] == live[h];
    }
  }

  ghost function LiveBlocks(b: Blocks): map<nat, nat> {
    map h | h in b && !b[h].free :: b[h].order
  }

  /** Halving a block of order `top` at page `block` down to order `target` puts one upper half of
      each order in between at the front of its list. */
  ghost predicate HalvesPushed(before: seq<seq<nat>>, after: seq<seq<nat>>, block: nat, target: nat, top: nat) {
    && |before| == |after|
    && (forall j: nat | j < |after| ::
          after[j] == if target <= j < top then [block + Pow2(j)] + before[j] else before[j])
  }

  lemma HalvesNone(lists: seq<seq<nat>>, block: nat, k: nat)
    ensures HalvesPushed(lists, lists, block, k, k)
  {}

  lemma HalvesStep(before: seq<seq<nat>>, after: seq<seq<nat>>, block: nat, k: nat, top: nat)
    requires HalvesPushed(before, after, block, k + 1, top) && k < top <= |after|
    ensures HalvesPushed(before, Pushed(after, k, block + Pow2(k)), block, k, top)
  {}

  lemma HalvesInside(b: Blocks, base: nat, n: nat, h: nat, k: nat)
    requires Sound(b, base, n) && h in b && b[h].order == k + 1
    ensures h < h + Pow2(k) < n && k + 1 <= MAX_ORDER
  {
    assert End(b, h) <= n;
  }

  lemma SplitLive(b: Blocks, h: nat, k: nat)
    requires h in b && b[h] == Tile(k + 1, false) && h + Pow2(k) !in b
    ensures LiveBlocks(SplitBlock(b, h, k)) == LiveBlocks(b)[h := k]
  {}

  lemma ListIndex(b: Blocks, lists: seq<seq<nat>>, h: nat, k: nat) returns (i: nat)
    requires Listed(b, lists) && h in b && b[h] == Tile(k, true) && k < LISTS
    ensures i < |lists[k]| && lists[k][i] == h
  {
    assert h in lists[k];
    i :| 0 <= i < |lists[k]| && lists[k][i] == h;
  }

  lemma MarkListed(b: Blocks, lists: seq<seq<nat>>, h: nat, k: nat)
    requires Listed(b, lists) && k < LISTS && h in b && b[h] == Tile(k, false)
    ensures Listed(b[h := Tile(k, true)], Pushed(lists, k, h))
    ensures forall j | 0 <= j < LISTS :: h !in lists[j]
  {}

  lemma Merged(b: Blocks, h: nat, g: nat, k: nat)
    ensures var low := if h < g then h else g;
            low in MergeBlocks(b, h, g, k) && MergeBlocks(b, h, g, k)[low] == Tile(k + 1, false)
  {}

  lemma MergeLive(b: Blocks, h: nat, g: nat, k: nat)
    requires h in b && g in b && h != g && b[h] == Tile(k, false) && b[g] == Tile(k, true)
    ensures LiveBlocks(MergeBlocks(b, h, g, k)) - {if h < g then h else g} == LiveBlocks(b) - {h}
  {
    var low := if h < g then h else g;
    var x, y := LiveBlocks(MergeBlocks(b, h, g, k)) - {low}, LiveBlocks(b) - {h};
    assert x.Keys == y.Keys;
  }

  lemma FreeLive(b: Blocks, h: nat, k: nat)
    requires h in b && b[h] == Tile(k, false)
    ensures LiveBlocks(b[h := Tile(k, true)]) == LiveBlocks(b) - {h}
  {}

  /** No free block of order k or more. */
  ghost predicate NoneFree(b: Blocks, k: nat) {
    forall h | h in b && b[h].free :: b[h].order < k
  }

  lemma FoundFree(b: Blocks, k: nat, need: nat, h: nat)
    requires h in b && b[h] == Tile(k, true) && need <= k
    ensures !NoneFree(b, need) && h !in LiveBlocks(b)
  {}

  lemma NothingFree(b: Blocks, lists: seq<seq<nat>>, base: nat, need: nat)
    requires Listed(b, lists) && Aligned(b, base)
    requires forall j | need <= j < LISTS :: lists[j] == []
    ensures NoneFree(b, need)
  {
    forall h | h in b && b[h].free
      ensures b[h].order < need
    {
      assert h in lists[b[h].order];
    }
  }

  lemma RoundedPages(rounded: nat, j: nat)
    requires rounded == Pow2(j) && j <= 63
    ensures rounded <= MAX_REQUEST && MAX_REQUEST / PAGE_SIZE == Pow2(51)
  {
    PageSize();
    LargestRequest(32);
    Pow2Mono(j, 63);
    Pow2Add(51, PAGE_SHIFT);
    DivUnique(MAX_REQUEST, PAGE_SIZE, Pow2(51), 0);
  }

  /** The order asked for, from the size rounded up to 2^j. */
  lemma RequestOrder(size: nat, j: nat, k: nat)
    requires size <= Pow2(j) && 3 <= j && (j > 3 ==> Pow2(j - 1) < size)
    requires Pow2(j) / PAGE_SIZE <= Pow2(k) && (k > 0 ==> Pow2(k - 1) < Pow2(j) / PAGE_SIZE)
    ensures FitsOrder(size, k)
  {
    PageSize();
    if j < PAGE_SHIFT {
      Pow2Mono(j, PAGE_SHIFT);
      assert Pow2(0) == 1;
    } else {
      var m := j - PAGE_SHIFT;
      Pow2Add(m, PAGE_SHIFT);
      DivUnique(Pow2(j), PAGE_SIZE, Pow2(m), 0);
      if k > m {
        Pow2Mono(m, k - 1);
      } else if k < m {
        Pow2Mono(k, m - 1);
      }
      if m > 0 {
        Pow2Add(m - 1, PAGE_SHIFT);
      }
    }
  }

  lemma TakeListed(b: Blocks, lists: seq<seq<nat>>, h: nat, k: nat)
    requires Listed(b, lists) && k < LISTS && lists[k] != [] && h == lists[k][0] && Distinct(lists[k])
    ensures Without(lists[k], 0) == lists[k][1..]
    ensures Listed(b[h := Tile(k, false)], lists[k := lists[k][1..]])
    ensures LiveBlocks(b[h := Tile(k, false)]) == LiveBlocks(b)[h := k]
  {
    WithoutMembers(lists[k], 0);
    assert lists[k] == [h] + lists[k][1..] && h in lists[k] && b[h] == Tile(k, true);
    var c, after := b[h := Tile(k, false)], lists[k := lists[k][1..]];
    forall j, p: nat | 0 <= j < LISTS
      ensures p in after[j] <==> p in c && c[p] == Tile(j, true)
    {
      assert p in after[j] <==> p in lists[j] && (j == k ==> p != h);
    }
    assert LiveBlocks(c).Keys == LiveBlocks(b)[h := k].Keys;
  }

  /** Every page a block of its own, none of them free. */
  ghost function EveryPage(n: nat): (b: Blocks)
    ensures forall p: nat :: p in b <==> p < n
    ensures forall p | p in b :: b[p] == Tile(0, false)
  {
    if n == 0 then map[] else EveryPage(n - 1)[n - 1 := Tile(0, false)]
  }

  lemma SinglePages(b: Blocks, base: nat, n: nat)
    requires b == EveryPage(n)
    ensures Sound(b, base, n)
  {
    forall p: nat | p < n
      ensures Covered(b, p)
    {
      assert Covers(b, p, p);
    }
  }

  lemma PageProducts(x: nat, k: nat)
    ensures Pow2(k + PAGE_SHIFT) == Pow2(k) * PAGE_SIZE
    ensures x * PAGE_SIZE / Pow2(k + PAGE_SHIFT) == x / Pow2(k)
  {
    PageSize();
    Pow2Add(PAGE_SHIFT, k);
    DivDiv(x * PAGE_SIZE, PAGE_SIZE, Pow2(k));
  }

  /** Flipping the address bit is taking the buddy page. */
  lemma BuddyAddress(base: nat, block: nat, k: nat)
    requires (base + block) % Pow2(k) == 0
    ensures Pow2(k + PAGE_SHIFT) == Pow2(k) * PAGE_SIZE
    ensures Xor((base + block) * PAGE_SIZE, Pow2(k + PAGE_SHIFT)) == (base + BuddyPage(base, block, k)) * PAGE_SIZE
  {
    PageProducts(base + block, k);
    XorBit((base + block) * PAGE_SIZE, k + PAGE_SHIFT);
  }

  /** A block merges with a free buddy of its own order exactly when the buddy does not end the pool:
      the source's range test turns away the upper half at the very end, but not the lower half when
      the upper half is freed last. */
  lemma MergesUnlessLast(b: Blocks, base: nat, n: nat, h: nat)
    requires Sound(b, base, n) && h in b && b[h].order < MAX_ORDER
    requires var g := BuddyPage(base, h, b[h].order); g in b && b[g] == Tile(b[h].order, true)
    ensures CanMerge(b, base, n, h) <==> BuddyPage(base, h, b[h].order) + Pow2(b[h].order) != n
    ensures BuddyPage(base, h, b[h].order) < h ==> CanMerge(b, base, n, h)
  {
    var g := BuddyPage(base, h, b[h].order);
    assert End(b, g) <= n && End(b, h) <= n;
  }

  /** What becomes of the blocks when block h is freed: it absorbs its buddy as long as the source lets it. */
  ghost function Freed(b: Blocks, base: nat, n: nat, h: nat): Blocks
    requires h in b
    decreases MAX_ORDER - b[h].order
  {
    var k := b[h].order;
    var g := BuddyPage(base, h, k);
    if CanMerge(b, base, n, h) then Freed(MergeBlocks(b, h, g, k), base, n, if h < g then h else g)
    else b[h := Tile(k, true)]
  }

  lemma FreedStep(b: Blocks, base: nat, n: nat, h: nat)
    requires h in b
    ensures var k := b[h].order;
            var g := BuddyPage(base, h, k);
            Freed(b, base, n, h) == if CanMerge(b, base, n, h)
                                    then Freed(MergeBlocks(b, h, g, k), base, n, if h < g then h else g)
                                    else b[h := Tile(k, true)]
  {}

  /** Two pages, each a block of its own. */
  function Pages(free0: bool, free1: bool): Blocks {
    map[0 := Tile(0, free0), 1 := Tile(0, free1)]
  }

  /** The order of freeing matters in a pool of two pages that are buddies: when page 0 comes last, both pages are
      free and yet no block of two pages can be had. When page 1 comes last, they merge. */
  lemma LastPairStays(base: nat)
    requires base % 2 == 0
    ensures Sound(Pages(false, true), base, 2) && Freed(Pages(false, true), base, 2, 0) == Pages(true, true)
    ensures Sound(Pages(true, true), base, 2) && NoneFree(Pages(true, true), 1)
    ensures Sound(Pages(true, false), base, 2) && Freed(Pages(true, false), base, 2, 1) == map[0 := Tile(1, true)]
  {
    hide Freed, Sound;
    TwoPages(base, false, true);
    TwoPages(base, true, true);
    TwoPages(base, true, false);
    FreedStep(Pages(false, true), base, 2, 0);
    FreedMerged(base);
  }

  lemma FreedMerged(base: nat)
    requires base % 2 == 0
    ensures Freed(Pages(true, false), base, 2, 1) == map[0 := Tile(1, true)]
  {
    hide Freed;
    assert CanMerge(Pages(true, false), base, 2, 1);
    FreedStep(Pages(true, false), base, 2, 1);
    assert MergeBlocks(Pages(true, false), 1, 0, 0) == map[0 := Tile(1, false)];
    FreedStep(map[0 := Tile(1, false)], base, 2, 0);
  }

  /** A page that is not live, where all live blocks are single pages, belongs to a free block. */
  lemma SomeFree(b: Blocks, base: nat, n: nat)
    requires Sound(b, base, n) && (forall h | h in LiveBlocks(b) :: LiveBlocks(b)[h] == 0)
    requires exists p: nat :: p < n && p !in LiveBlocks(b)
    ensures !NoneFree(b, 0)
  {
    var p: nat :| p < n && p !in LiveBlocks(b);
    var h := BlockOf(b, n, p);
    assert !b[h].free ==> h in LiveBlocks(b) && h == p;
  }

  lemma LiveInside(b: Blocks, base: nat, n: nat, h: nat)
    requires Sound(b, base, n) && h in LiveBlocks(b)
    ensures h < n
  {
    assert End(b, h) <= n;
  }

  lemma BothTaken(b: Blocks, base: nat)
    requires Sound(b, base, 2) && LiveBlocks(b) == map[0 := 0, 1 := 0]
    ensures b == Pages(false, false)
  {
    assert 0 in LiveBlocks(b) && 1 in LiveBlocks(b);
    assert forall h | h in b :: End(b, h) <= 2;
  }

  /** Requests of one page and of two. */
  lemma PageOrders(k: nat)
    ensures FitsOrder(PAGE_SIZE, k) ==> k == 0
    ensures FitsOrder(2 * PAGE_SIZE, k) ==> k == 1
  {
    if k > 1 {
      Pow2Mono(1, k - 1);
    }
  }

  lemma FreedAlone(base: nat)
    requires base % 2 == 0
    ensures Freed(Pages(false, false), base, 2, 1) == Pages(false, true)
  {
    hide Freed;
    FreedStep(Pages(false, false), base, 2, 1);
    assert Pages(false, false)[1 := Tile(0, true)] == Pages(false, true);
  }

  lemma TwoPages(base: nat, free0: bool, free1: bool)
    ensures Sound(Pages(free0, free1), base, 2)
  {
    var b := Pages(free0, free1);
    forall p: nat | p < 2
      ensures Covered(b, p)
    {
      assert Covers(b, p, p);
    }
  }
}
