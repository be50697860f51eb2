/** The two-layer heap of os-l1/kernel/src/pmm.c seen as data: buddy blocks, slab headers and the free
    objects of each slab. States where objects lie and why they never meet. */
module SlabHeap {
  import opened Bits
  import opened Buddy
  import opened Sequences
  import opened Tiling

  /** `sizeof(slab_t)`. */
  const HEADER_SIZE: nat := 40
  /** `MAX_CACHES`. */
  const CACHES: nat := 10

  /** The fields of a `slab_t` at the start of its page; NULL is 0. */
  datatype Header = Header(next: nat, freeObjects: nat, numFree: nat, size: nat)

  /** `g_caches[i].obj_size`, for the caches that requests below a page can reach. */
  function ObjSize(i: nat): nat {
    8 * Pow2(i)
  }

  predicate IsObjSize(size: nat) {
    size in {8, 16, 32, 64, 128, 256, 512, 1024, 2048}
  }

  /** The smallest of these sizes that is not below a request. */
  function ServedSize(size: nat): (served: nat)
    requires 0 < size <= 2048
    ensures IsObjSize(served) && size <= served && forall s: nat | IsObjSize(s) && size <= s :: served <= s
  {
    if size <= 8 then 8
    else if size <= 16 then 16
    else if size <= 32 then 32
    else if size <= 64 then 64
    else if size <= 128 then 128
    else if size <= 256 then 256
    else if size <= 512 then 512
    else if size <= 1024 then 1024
    else 2048
  }

  /** `ALIGN(addr, size)`. */
  function AlignTo(addr: nat, size: nat): nat
    requires size > 0
  {
    (addr + size - 1) / size * size
  }

  /** The offset of the first object behind the slab's header. */
  function FirstOffset(size: nat): nat {
    if size <= 8 then 40 else if size <= 16 then 48 else if size <= 64 then 64 else size
  }

  /** The number of objects of a slab. */
  function ObjCount(size: nat): nat
    requires size > 0 && FirstOffset(size) <= PAGE_SIZE
  {
    (PAGE_SIZE - FirstOffset(size)) / size
  }

  lemma SizeConstants(size: nat)
    requires IsObjSize(size)
    ensures AlignTo(HEADER_SIZE, size) == FirstOffset(size)
    ensures HEADER_SIZE <= FirstOffset(size) <= PAGE_SIZE
    ensures PAGE_SIZE % size == 0 && FirstOffset(size) % size == 0
    ensures ObjCount(size) >= 1 && FirstOffset(size) + ObjCount(size) * size == PAGE_SIZE
  {}

  lemma AlignShift(base: nat, x: nat, size: nat)
    requires size > 0 && base % size == 0
    ensures AlignTo(base + x, size) == base + AlignTo(x, size)
  {
    var q, y := base / size, x + size - 1;
    MultipleOf(base, size);
    var p, r := y / size, y % size;
    SumOfFactors(q, p, size);
    DivUnique(base + y, size, q + p, r);
  }

  lemma DivisorOfDivisor(x: nat, m: nat, d: nat)
    requires m > 0 && d > 0 && x % m == 0 && m % d == 0
    ensures x % d == 0
  {
    MultipleOf(x, m);
    MultipleOf(m, d);
    var u, v := x / m, m / d;
    assert u * (v * d) == u * v * d;
    DivUnique(x, d, u * v, 0);
  }

  lemma SlabLayout(slab: nat, size: nat)
    requires slab % PAGE_SIZE == 0 && IsObjSize(size)
    ensures AlignTo(slab + HEADER_SIZE, size) == slab + FirstOffset(size)
    ensures HEADER_SIZE <= FirstOffset(size) <= PAGE_SIZE
    ensures slab % size == 0 && (slab + FirstOffset(size)) % size == 0
    ensures ObjCount(size) >= 1 && FirstOffset(size) + ObjCount(size) * size == PAGE_SIZE
    ensures ObjCount(size) == (PAGE_SIZE - FirstOffset(size)) / size
  {
    SizeConstants(size);
    DivisorOfDivisor(slab, PAGE_SIZE, size);
    AlignShift(slab, HEADER_SIZE, size);
    AlignedSum(slab, FirstOffset(size), size);
  }

  /** The heap: the pool's first address, its blocks, the slab headers and each slab's free objects. */
  datatype Heap = Heap(start: nat, pages: nat, blocks: Blocks, headers: map<nat, Header>,
                       freeObjs: map<nat, seq<nat>>) {
    /** The allocated blocks: first page and order. */
    ghost function Live(): map<nat, nat> {
      LiveBlocks(blocks)
    }
  }

  /** The places for objects of the given size in a slab page. */
  predicate IsSlot(slab: nat, size: nat, a: nat) {
    size > 0 && a % size == 0 && slab + FirstOffset(size) <= a && a + size <= slab + PAGE_SIZE
  }

  /** The page of the pool that an address lies in. */
  function PageIndex(start: nat, a: nat): nat
    requires a >= start
  {
    (a - start) / PAGE_SIZE
  }

  ghost predicate IsSlabPage(h: Heap, slab: nat) {
    && slab in h.headers
    && h.start <= slab && slab % PAGE_SIZE == 0
    && PageIndex(h.start, slab) in h.Live() && h.Live()[PageIndex(h.start, slab)] == 0
    && IsObjSize(h.headers[slab].size)
  }

  ghost predicate FreeObjectsSound(h: Heap, slab: nat)
    requires slab in h.headers
  {
    && slab in h.freeObjs
    && Distinct(h.freeObjs[slab])
    && (forall a | a in h.freeObjs[slab] :: IsSlot(slab, h.headers[slab].size, a))
  }

  ghost predicate HeapSound(h: Heap) {
    && h.start > 0 && h.start % PAGE_SIZE == 0
    && h.start + h.pages * PAGE_SIZE < 0x1_0000_0000_0000_0000
    && Sound(h.blocks, h.start / PAGE_SIZE, h.pages)
    && (forall slab | slab in h.headers :: IsSlabPage(h, slab) && FreeObjectsSound(h, slab))
  }

  /** The slab page an address lies in or starts. */
  function PageStart(a: nat): nat {
    a / PAGE_SIZE * PAGE_SIZE
  }

  /** The size of the live object at an address, 0 when there is none: an object of a slab that is not
      on the slab's free list, or an allocated block that is no slab. */
  ghost function SizeAt(h: Heap, a: nat): nat {
    var page := PageStart(a);
    if page in h.headers then
      if IsSlot(page, h.headers[page].size, a) && page in h.freeObjs && a !in h.freeObjs[page]
      then h.headers[page].size else 0
    else if a == page && a >= h.start && PageIndex(h.start, a) in h.Live()
    then Pow2(h.Live()[PageIndex(h.start, a)]) * PAGE_SIZE
    else 0
  }

  lemma PageFacts(a: nat)
    ensures PageStart(a) % PAGE_SIZE == 0 && PageStart(a) <= a < PageStart(a) + PAGE_SIZE
  {}

  lemma IndexFacts(h: Heap, page: nat)
    requires h.start % PAGE_SIZE == 0 && page % PAGE_SIZE == 0 && page >= h.start
    ensures page == h.start + PageIndex(h.start, page) * PAGE_SIZE
  {}

  /** The block that a live object lies in, and its extent in bytes. */
  lemma ObjectInBlock(h: Heap, a: nat) returns (p: nat)
    requires HeapSound(h) && SizeAt(h, a) > 0
    ensures p in h.blocks && !h.blocks[p].free
    ensures h.start + p * PAGE_SIZE <= a
    ensures a + SizeAt(h, a) <= h.start + End(h.blocks, p) * PAGE_SIZE
    ensures PageStart(a) >= h.start && p == PageIndex(h.start, PageStart(a))
  {
    hide PageStart, PageIndex, Sound;
    var page := PageStart(a);
    PageFacts(a);
    if page in h.headers {
      assert IsSlabPage(h, page);
    }
    p := PageIndex(h.start, page);
    IndexFacts(h, page);
  }

  lemma BlockOrder(h: Heap, p: nat, q: nat)
    requires Apart(h.blocks) && p in h.blocks && q in h.blocks && p < q
    ensures h.start + End(h.blocks, p) * PAGE_SIZE <= h.start + q * PAGE_SIZE
  {
    assert End(h.blocks, p) <= q;
  }

  /** Live objects do not overlap. */
  lemma ObjectsDisjoint(h: Heap, a: nat, b: nat)
    requires HeapSound(h) && SizeAt(h, a) > 0 && SizeAt(h, b) > 0 && a < b
    ensures a + SizeAt(h, a) <= b
  {
    var p := ObjectInBlock(h, a);
    var q := ObjectInBlock(h, b);
    if p == q {
      SamePageStart(a, b, h.start);
      AlignedGap(a, b, SizeAt(h, a));
    } else if p < q {
      BlockOrder(h, p, q);
    } else {
      BlockOrder(h, q, p);
    }
  }

  lemma SamePageStart(a: nat, b: nat, start: nat)
    requires start % PAGE_SIZE == 0 && PageStart(a) >= start && PageStart(b) >= start
    requires PageIndex(start, PageStart(a)) == PageIndex(start, PageStart(b))
    ensures PageStart(a) == PageStart(b)
  {}

  /** Live objects lie inside the pool. */
  lemma ObjectsInPool(h: Heap, a: nat)
    requires HeapSound(h) && SizeAt(h, a) > 0
    ensures h.start <= a && a + SizeAt(h, a) <= h.start + h.pages * PAGE_SIZE
  {
    var p := ObjectInBlock(h, a);
    assert End(h.blocks, p) <= h.pages;
  }

  /** Live objects start at multiples of their size, which is a power of two. */
  lemma ObjectsAligned(h: Heap, a: nat)
    requires HeapSound(h) && SizeAt(h, a) > 0
    ensures a % SizeAt(h, a) == 0
  {
    hide PageStart, PageIndex;
    if PageStart(a) !in h.headers {
      PageFacts(a);
      IndexFacts(h, a);
      var p := PageIndex(h.start, a);
      PageMultiple(h.start / PAGE_SIZE + p, Pow2(h.Live()[p]));
      assert h.start == h.start / PAGE_SIZE * PAGE_SIZE;
    }
  }

  lemma PageMultiple(x: nat, m: nat)
    requires m > 0 && x % m == 0
    ensures x * PAGE_SIZE % (m * PAGE_SIZE) == 0
  {
    MultipleOf(x, m);
    MulRearrange(x / m, m, 0, PAGE_SIZE);
    DivUnique(x * PAGE_SIZE, m * PAGE_SIZE, x / m, 0);
  }

  lemma ClearInPage(h: Heap, a: nat, slab: nat, f: nat)
    requires SizeAt(h, a) > 0 && PageStart(a) == slab && slab in h.headers && FreeObjectsSound(h, slab)
    requires f in h.freeObjs[slab]
    ensures a + SizeAt(h, a) <= f || f + h.headers[slab].size <= a
  {
    var size := h.headers[slab].size;
    assert IsSlot(slab, size, f) && f != a;
    if f < a {
      AlignedGap(f, a, size);
    } else {
      AlignedGap(a, f, size);
    }
  }

  /** No live object meets a slab's header or one of the free objects. */
  lemma ObjectsClearOfSlabs(h: Heap, a: nat, slab: nat)
    requires HeapSound(h) && SizeAt(h, a) > 0 && slab in h.headers && IsSlabPage(h, slab) && FreeObjectsSound(h, slab)
    ensures a + SizeAt(h, a) <= slab || slab + HEADER_SIZE <= a
    ensures forall f | f in h.freeObjs[slab] ::
              a + SizeAt(h, a) <= f || f + h.headers[slab].size <= a
  {
    var p := ObjectInBlock(h, a);
    var q := PageIndex(h.start, slab);
    if PageStart(a) == slab {
      forall f | f in h.freeObjs[slab]
        ensures a + SizeAt(h, a) <= f || f + h.headers[slab].size <= a
      {
        ClearInPage(h, a, slab, f);
      }
    } else {
      OutsideSlabPage(h, a, p, q, slab);
    }
  }

  lemma OutsideSlabPage(h: Heap, a: nat, p: nat, q: nat, slab: nat)
    requires Apart(h.blocks) && h.start % PAGE_SIZE == 0 && PageStart(a) != slab
    requires p in h.blocks && h.start + p * PAGE_SIZE <= a && a + SizeAt(h, a) <= h.start + End(h.blocks, p) * PAGE_SIZE
    requires PageStart(a) >= h.start && p == PageIndex(h.start, PageStart(a))
    requires slab in h.headers && IsSlabPage(h, slab) && FreeObjectsSound(h, slab) && q == PageIndex(h.start, slab)
    ensures a + SizeAt(h, a) <= slab || slab + PAGE_SIZE <= a
    ensures forall f | f in h.freeObjs[slab] :: slab <= f && f + h.headers[slab].size <= slab + PAGE_SIZE
  {
    hide PageStart, PageIndex;
    PageFacts(a);
    IndexFacts(h, PageStart(a));
    IndexFacts(h, slab);
    if p < q {
      BlockOrder(h, p, q);
    } else if q < p {
      BlockOrder(h, q, p);
    }
    assert forall f | f in h.freeObjs[slab] :: IsSlot(slab, h.headers[slab].size, f);
  }

  // ----- What allocation and freeing change ---------------------------------------------------

  /** h' has one live object more than h. */
  ghost predicate Placed(h: Heap, h': Heap, a: nat, size: nat) {
    && SizeAt(h, a) == 0 && SizeAt(h', a) == size > 0
    && (forall b: nat | b != a :: SizeAt(h', b) == SizeAt(h, b))
  }

  lemma PlacedMeans(h: Heap, h': Heap, a: nat, size: nat)
    requires Placed(h, h', a, size)
    ensures SizeAt(h, a) == 0 && SizeAt(h', a) == size > 0
    ensures forall b: nat | b != a :: SizeAt(h', b) == SizeAt(h, b)
  {}

  function WithSlab(h: Heap, slab: nat, header: Header, objs: seq<nat>): Heap {
    h.(headers := h.headers[slab := header], freeObjs := h.freeObjs[slab := objs])
  }

  /** Taking the first object off a slab's free list makes it live. */
  lemma ObjectTaken(h: Heap, slab: nat, header: Header)
    requires HeapSound(h) && slab in h.headers && header.size == h.headers[slab].size
    requires slab in h.freeObjs && h.freeObjs[slab] != []
    ensures HeapSound(WithSlab(h, slab, header, h.freeObjs[slab][1..]))
    ensures Placed(h, WithSlab(h, slab, header, h.freeObjs[slab][1..]), h.freeObjs[slab][0], header.size)
  {
    hide PageStart, PageIndex, Sound;
    var objs := h.freeObjs[slab];
    var h' := WithSlab(h, slab, header, objs[1..]);
    assert FreeObjectsSound(h, slab) && IsSlabPage(h, slab);
    assert objs == [objs[0]] + objs[1..];
    forall s | s in h'.headers
      ensures IsSlabPage(h', s) && FreeObjectsSound(h', s)
    {
      assert IsSlabPage(h, s) && FreeObjectsSound(h, s);
    }
    assert IsSlot(slab, header.size, objs[0]);
    SlotInPage(slab, header.size, objs[0]);
  }

  lemma SlotInPage(slab: nat, size: nat, a: nat)
    requires slab % PAGE_SIZE == 0 && IsObjSize(size) && IsSlot(slab, size, a)
    ensures PageStart(a) == slab
  {
    SizeConstants(size);
    assert slab == slab / PAGE_SIZE * PAGE_SIZE;
  }

  /** Pushing a live object on its slab's free list frees it. */
  lemma ObjectFreed(h: Heap, slab: nat, header: Header, a: nat)
    requires HeapSound(h) && slab in h.headers && header.size == h.headers[slab].size
    requires SizeAt(h, a) > 0 && PageStart(a) == slab && slab in h.freeObjs
    ensures HeapSound(WithSlab(h, slab, header, [a] + h.freeObjs[slab]))
    ensures Placed(WithSlab(h, slab, header, [a] + h.freeObjs[slab]), h, a, header.size)
  {
    hide PageStart, PageIndex, Sound;
    var objs := h.freeObjs[slab];
    var h' := WithSlab(h, slab, header, [a] + objs);
    assert FreeObjectsSound(h, slab) && IsSlabPage(h, slab);
    forall s | s in h'.headers
      ensures IsSlabPage(h', s) && FreeObjectsSound(h', s)
    {
      assert IsSlabPage(h, s) && FreeObjectsSound(h, s);
    }
  }

  ghost predicate SameSizes(h: Heap, h': Heap) {
    forall a: nat :: SizeAt(h', a) == SizeAt(h, a)
  }

  /** A change of a slab header's link changes no live object. */
  lemma HeaderRelinked(h: Heap, slab: nat, header: Header)
    requires HeapSound(h) && slab in h.headers && header.size == h.headers[slab].size && slab in h.freeObjs
    ensures HeapSound(WithSlab(h, slab, header, h.freeObjs[slab]))
    ensures SameSizes(h, WithSlab(h, slab, header, h.freeObjs[slab]))
  {
    hide PageStart, PageIndex, Sound;
    var h' := WithSlab(h, slab, header, h.freeObjs[slab]);
    forall s | s in h'.headers
      ensures IsSlabPage(h', s) && FreeObjectsSound(h', s)
    {
      assert IsSlabPage(h, s) && FreeObjectsSound(h, s);
    }
  }

  /** A block taken from the buddy system is a live object of its own. */
  lemma BlockTaken(h: Heap, blocks': Blocks, p: nat, k: nat)
    requires HeapSound(h) && Sound(blocks', h.start / PAGE_SIZE, h.pages)
    requires p !in h.Live() && LiveBlocks(blocks') == h.Live()[p := k]
    ensures HeapSound(h.(blocks := blocks'))
    ensures Placed(h, h.(blocks := blocks'), h.start + p * PAGE_SIZE, Pow2(k) * PAGE_SIZE)
  {
    hide PageStart, Sound, LiveBlocks;
    var h', a := h.(blocks := blocks'), h.start + p * PAGE_SIZE;
    BlockAddress(h.start, p);
    forall s | s in h.headers
      ensures IsSlabPage(h', s) && FreeObjectsSound(h', s) && s != a
    {
      assert IsSlabPage(h, s) && FreeObjectsSound(h, s);
    }
    forall b: nat | b != a
      ensures SizeAt(h', b) == SizeAt(h, b)
    {
      OtherAddress(h.start, p, b);
    }
  }

  lemma BlockAddress(start: nat, p: nat)
    requires start % PAGE_SIZE == 0
    ensures PageStart(start + p * PAGE_SIZE) == start + p * PAGE_SIZE
    ensures PageIndex(start, start + p * PAGE_SIZE) == p
  {}

  lemma OtherAddress(start: nat, p: nat, a: nat)
    requires start % PAGE_SIZE == 0 && a != start + p * PAGE_SIZE
    ensures a == PageStart(a) && a >= start ==> PageIndex(start, a) != p
  {
    PageFacts(a);
  }

  /** A block given back is no longer live, and nothing else changes. */
  lemma BlockReturned(h: Heap, blocks': Blocks, p: nat)
    requires HeapSound(h) && Sound(blocks', h.start / PAGE_SIZE, h.pages)
    requires p in h.Live() && LiveBlocks(blocks') == h.Live() - {p}
    requires h.start + p * PAGE_SIZE !in h.headers
    ensures HeapSound(h.(blocks := blocks'))
    ensures Placed(h.(blocks := blocks'), h, h.start + p * PAGE_SIZE, Pow2(h.Live()[p]) * PAGE_SIZE)
  {
    hide PageStart, Sound, LiveBlocks;
    var h', a := h.(blocks := blocks'), h.start + p * PAGE_SIZE;
    BlockAddress(h.start, p);
    forall s | s in h.headers
      ensures IsSlabPage(h', s) && FreeObjectsSound(h', s)
    {
      assert IsSlabPage(h, s) && FreeObjectsSound(h, s);
      IndexFacts(h, s);
    }
    forall b: nat | b != a
      ensures SizeAt(h', b) == SizeAt(h, b)
    {
      OtherAddress(h.start, p, b);
    }
  }

  /** The objects of a slab in address order. */
  function Slots(first: nat, size: nat, count: nat): (l: seq<nat>)
    ensures |l| == count
  {
    seq(count, i requires 0 <= i < count => first + i * size)
  }

  lemma SlotsDistinct(first: nat, size: nat, count: nat)
    requires size > 0
    ensures Distinct(Slots(first, size, count))
  {
    forall i, j | 0 <= i < j < count
      ensures Slots(first, size, count)[i] != Slots(first, size, count)[j]
    {
      MulMono(i + 1, j, size);
      SumOfFactors(i, 1, size);
    }
  }

  lemma SlotNumber(slab: nat, size: nat, a: nat) returns (i: nat)
    requires slab % PAGE_SIZE == 0 && IsObjSize(size) && IsSlot(slab, size, a)
    ensures i < ObjCount(size) && a == slab + FirstOffset(size) + i * size
  {
    SlabLayout(slab, size);
    hide FirstOffset, ObjCount;
    var first := slab + FirstOffset(size);
    MultipleOf(a, size);
    MultipleOf(first, size);
    i := a / size - first / size;
    ProductDifference(a / size, first / size, size);
    ProductBound(i, ObjCount(size), size);
  }

  lemma ProductDifference(u: nat, v: nat, m: nat)
    requires v * m <= u * m && m > 0
    ensures u >= v && (u - v) * m == u * m - v * m
  {
    if u < v {
      MulMono(u + 1, v, m);
    }
  }

  lemma ProductBound(i: nat, n: nat, m: nat)
    requires i * m + m <= n * m && m > 0
    ensures i < n
  {
    if i >= n {
      MulMono(n, i, m);
    }
  }

  lemma SlotsAreSlots(slab: nat, size: nat, i: nat)
    requires slab % PAGE_SIZE == 0 && IsObjSize(size) && i < ObjCount(size)
    ensures IsSlot(slab, size, slab + FirstOffset(size) + i * size)
  {
    SlabLayout(slab, size);
    DivUnique(i * size, size, i, 0);
    AlignedSum(slab + FirstOffset(size), i * size, size);
    MulMono(i + 1, ObjCount(size), size);
    SumOfFactors(i, 1, size);
  }

  /** The objects of a new slab are all the multiples of the size that fit behind its 40 bytes of header. */
  lemma SlotOfPage(slab: nat, size: nat, a: nat)
    requires slab % PAGE_SIZE == 0 && IsObjSize(size)
    ensures a in Slots(slab + FirstOffset(size), size, ObjCount(size)) <==>
            a % size == 0 && slab + 40 <= a && a + size <= slab + 4096
  {
    var objs := Slots(slab + FirstOffset(size), size, ObjCount(size));
    SlotMultiple(slab, size, a);
    hide FirstOffset, ObjCount, IsObjSize;
    if a in objs {
      var i :| 0 <= i < |objs| && objs[i] == a;
      SlotsAreSlots(slab, size, i);
    }
    if IsSlot(slab, size, a) {
      var i := SlotNumber(slab, size, a);
      assert objs[i] == a;
    }
  }

  /** No multiple of the size is skipped behind the header. */
  lemma SlotMultiple(slab: nat, size: nat, a: nat)
    requires slab % PAGE_SIZE == 0 && IsObjSize(size)
    ensures IsSlot(slab, size, a) <==> a % size == 0 && slab + 40 <= a && a + size <= slab + 4096
  {
    SlabLayout(slab, size);
    if a % size == 0 && slab + 40 <= a && a < slab + FirstOffset(size) {
      AlignedGap(a, slab + FirstOffset(size), size);
    }
  }

  /** A new slab whose objects are all free changes no live object. */
  lemma SlabAdded(h: Heap, blocks': Blocks, p: nat, header: Header)
    requires HeapSound(h) && Sound(blocks', h.start / PAGE_SIZE, h.pages)
    requires p !in h.Live() && LiveBlocks(blocks') == h.Live()[p := 0]
    requires IsObjSize(header.size)
    ensures var slab := h.start + p * PAGE_SIZE;
            var objs := Slots(slab + FirstOffset(header.size), header.size, ObjCount(header.size));
            && slab !in h.headers
            && HeapSound(WithSlab(h.(blocks := blocks'), slab, header, objs))
            && SameSizes(h, WithSlab(h.(blocks := blocks'), slab, header, objs))
  {
    hide PageStart, Sound, LiveBlocks, IsSlot, SizeAt, FirstOffset, ObjCount, PageIndex, IsSlabPage, FreeObjectsSound;
    SizeConstants(header.size);
    var slab := h.start + p * PAGE_SIZE;
    BlockAddress(h.start, p);
    NewSlabPage(h, blocks', p, header);
    forall s | s in h.headers
      ensures s != slab
    {
      OldSlabPage(h, blocks', p, header, s);
    }
    var objs := Slots(slab + FirstOffset(header.size), header.size, ObjCount(header.size));
    var h' := WithSlab(h.(blocks := blocks'), slab, header, objs);
    forall s | s in h'.headers
      ensures IsSlabPage(h', s) && FreeObjectsSound(h', s)
    {
      if s != slab {
        OldSlabPage(h, blocks', p, header, s);
      }
    }
    forall a: nat
      ensures SizeAt(h', a) == SizeAt(h, a)
    {
      SlabAddedSize(h, blocks', p, header, a);
    }
  }

  /** The objects of the new slab are all free. */
  lemma NewSlabPage(h: Heap, blocks': Blocks, p: nat, header: Header)
    requires h.start % PAGE_SIZE == 0 && LiveBlocks(blocks') == h.Live()[p := 0] && IsObjSize(header.size)
    ensures var slab := h.start + p * PAGE_SIZE;
            var objs := Slots(slab + FirstOffset(header.size), header.size, ObjCount(header.size));
            var h' := WithSlab(h.(blocks := blocks'), slab, header, objs);
            IsSlabPage(h', slab) && FreeObjectsSound(h', slab)
  {
    hide LiveBlocks, IsSlot, FirstOffset, ObjCount, PageIndex;
    SizeConstants(header.size);
    var slab := h.start + p * PAGE_SIZE;
    var objs := Slots(slab + FirstOffset(header.size), header.size, ObjCount(header.size));
    BlockAddress(h.start, p);
    PageFacts(slab);
    SlotsDistinct(slab + FirstOffset(header.size), header.size, ObjCount(header.size));
    forall a | a in objs
      ensures IsSlot(slab, header.size, a)
    {
      var i :| 0 <= i < |objs| && objs[i] == a;
      SlotsAreSlots(slab, header.size, i);
    }
  }

  /** The other slabs lie in other pages. */
  lemma OldSlabPage(h: Heap, blocks': Blocks, p: nat, header: Header, s: nat)
    requires h.start % PAGE_SIZE == 0 && p !in h.Live() && LiveBlocks(blocks') == h.Live()[p := 0]
    requires IsObjSize(header.size) && s in h.headers && IsSlabPage(h, s) && FreeObjectsSound(h, s)
    ensures var slab := h.start + p * PAGE_SIZE;
            var objs := Slots(slab + FirstOffset(header.size), header.size, ObjCount(header.size));
            var h' := WithSlab(h.(blocks := blocks'), slab, header, objs);
            s != slab && IsSlabPage(h', s) && FreeObjectsSound(h', s)
  {
    hide LiveBlocks, IsSlot, FirstOffset, ObjCount, PageIndex;
    SizeConstants(header.size);
    BlockAddress(h.start, p);
  }

  /** In the page of the new slab there was nothing, and all objects are free. */
  lemma SlabAddedSize(h: Heap, blocks': Blocks, p: nat, header: Header, a: nat)
    requires h.start % PAGE_SIZE == 0 && p !in h.Live() && LiveBlocks(blocks') == h.Live()[p := 0]
    requires h.start + p * PAGE_SIZE !in h.headers && IsObjSize(header.size)
    ensures var slab := h.start + p * PAGE_SIZE;
            var objs := Slots(slab + FirstOffset(header.size), header.size, ObjCount(header.size));
            SizeAt(WithSlab(h.(blocks := blocks'), slab, header, objs), a) == SizeAt(h, a)
  {
    hide PageStart, LiveBlocks, IsSlot, FirstOffset, ObjCount, PageIndex;
    var slab := h.start + p * PAGE_SIZE;
    SizeConstants(header.size);
    BlockAddress(h.start, p);
    if PageStart(a) == slab {
      PageFacts(slab);
      if IsSlot(slab, header.size, a) {
        var i := SlotNumber(slab, header.size, a);
        assert Slots(slab + FirstOffset(header.size), header.size, ObjCount(header.size))[i] == a;
      }
    } else {
      OtherAddress(h.start, p, a);
    }
  }
}
