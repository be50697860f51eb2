/** `kalloc` and `kfree` of os-l1/kernel/src/pmm.c: the slab allocator over the buddy system. A slab's
    header and the next words of its free objects are kept in maps keyed by address. */
module Kmem {
  import opened Bits
  import opened Buddy
  import opened Sequences
  import opened SlabHeap
  import opened Tiling
  import opened Wrappers

  /** The size a request is rounded up to. */
  ghost predicate RoundsTo(size: nat, rounded: nat) {
    exists k: nat :: RoundsToPower(size, rounded, k)
  }

  ghost predicate RoundsToPower(size: nat, rounded: nat, k: nat) {
    k >= 3 && rounded == Pow2(k) && size <= rounded && (k > 3 ==> Pow2(k - 1) < size)
  }

  /** The free objects of a slab, linked through their first words and ended by NULL. */
  ghost predicate ObjectChain(next: map<nat, nat>, first: nat, l: seq<nat>) {
    && first == (if l == [] then 0 else l[0])
    && (forall i | 0 <= i < |l| :: LinkedAt(next, l, i))
  }

  predicate LinkedAt(next: map<nat, nat>, l: seq<nat>, i: nat)
    requires i < |l|
  {
    l[i] in next && next[l[i]] == if i + 1 < |l| then l[i + 1] else 0
  }

  /** The slabs of a cache, linked through their headers and ended by NULL. */
  ghost predicate SlabChain(headers: map<nat, Header>, first: nat, l: seq<nat>) {
    && first == (if l == [] then 0 else l[0])
    && (forall i | 0 <= i < |l| :: SlabLinkedAt(headers, l, i))
  }

  predicate SlabLinkedAt(headers: map<nat, Header>, l: seq<nat>, i: nat)
    requires i < |l|
  {
    l[i] in headers && l[i] > 0 && headers[l[i]].next == if i + 1 < |l| then l[i + 1] else 0
  }

  lemma ChainPopped(next: map<nat, nat>, first: nat, l: seq<nat>)
    requires ObjectChain(next, first, l) && l != []
    ensures first == l[0] && first in next && ObjectChain(next, next[first], l[1..])
  {
    assert LinkedAt(next, l, 0);
    forall i | 0 <= i < |l| - 1
      ensures LinkedAt(next, l[1..], i)
    {
      assert LinkedAt(next, l, i + 1);
    }
  }

  lemma ChainPushed(next: map<nat, nat>, first: nat, l: seq<nat>, a: nat)
    requires ObjectChain(next, first, l) && a !in l
    ensures ObjectChain(next[a := first], a, [a] + l)
  {
    var l', next' := [a] + l, next[a := first];
    forall i | 0 <= i < |l'|
      ensures LinkedAt(next', l', i)
    {
      if i > 0 {
        assert LinkedAt(next, l, i - 1);
      }
    }
  }

  lemma ChainFrame(next: map<nat, nat>, a: nat, value: nat, first: nat, l: seq<nat>)
    requires ObjectChain(next, first, l) && a !in l
    ensures ObjectChain(next[a := value], first, l)
  {
    var next' := next[a := value];
    forall i | 0 <= i < |l|
      ensures LinkedAt(next', l, i)
    {
      assert LinkedAt(next, l, i);
    }
  }

  // ----- The lists of objects and slabs --------------------------------------------------------

  /** Every slab's header describes its list of free objects. */
  ghost predicate ObjectLists(headers: map<nat, Header>, next: map<nat, nat>, free: map<nat, seq<nat>>) {
    forall s | s in headers :: ObjectList(headers, next, free, s)
  }

  ghost predicate ObjectList(headers: map<nat, Header>, next: map<nat, nat>, free: map<nat, seq<nat>>, s: nat)
    requires s in headers
  {
    s in free && ObjectChain(next, headers[s].freeObjects, free[s]) && headers[s].numFree == |free[s]|
  }

  ghost predicate InChain(chains: seq<seq<nat>>, s: nat) {
    exists i :: 0 <= i < |chains| && s in chains[i]
  }

  /** Every slab, but for one that is being added, is in the list of the cache of its size. */
  ghost predicate CacheLists(headers: map<nat, Header>, heads: seq<nat>, chains: seq<seq<nat>>, adding: nat) {
    && |chains| == CACHES == |heads|
    && (forall i | 0 <= i < CACHES :: SlabChain(headers, heads[i], chains[i]))
    && (forall i, s | 0 <= i < CACHES && s in chains[i] :: s in headers && headers[s].size == ObjSize(i))
    && (forall s | s in headers && s != adding :: InChain(chains, s))
  }

  lemma PopObjectLists(headers: map<nat, Header>, next: map<nat, nat>, free: map<nat, seq<nat>>, slab: nat)
    requires ObjectLists(headers, next, free) && slab in headers && headers[slab].numFree > 0
    ensures var h := headers[slab];
            && slab in free && free[slab] != [] && h.freeObjects == free[slab][0] && h.freeObjects in next
            && ObjectLists(headers[slab := h.(freeObjects := next[h.freeObjects], numFree := h.numFree - 1)], next,
                           free[slab := free[slab][1..]])
  {
    assert ObjectList(headers, next, free, slab);
    ChainPopped(next, headers[slab].freeObjects, free[slab]);
    var h := headers[slab];
    var headers' := headers[slab := h.(freeObjects := next[h.freeObjects], numFree := h.numFree - 1)];
    var free' := free[slab := free[slab][1..]];
    forall s | s in headers'
      ensures ObjectList(headers', next, free', s)
    {
      if s != slab {
        assert ObjectList(headers, next, free, s);
      }
    }
  }

  lemma PushObjectLists(headers: map<nat, Header>, next: map<nat, nat>, free: map<nat, seq<nat>>, slab: nat, a: nat)
    requires ObjectLists(headers, next, free) && slab in headers
    requires forall s | s in headers && s in free :: a !in free[s]
    ensures var h := headers[slab];
            && slab in free
            && ObjectLists(headers[slab := h.(freeObjects := a, numFree := h.numFree + 1)], next[a := h.freeObjects],
                           free[slab := [a] + free[slab]])
  {
    assert ObjectList(headers, next, free, slab);
    var h := headers[slab];
    ChainPushed(next, h.freeObjects, free[slab], a);
    var headers' := headers[slab := h.(freeObjects := a, numFree := h.numFree + 1)];
    var next', free' := next[a := h.freeObjects], free[slab := [a] + free[slab]];
    forall s | s in headers'
      ensures ObjectList(headers', next', free', s)
    {
      if s != slab {
        assert ObjectList(headers, next, free, s);
        ChainFrame(next, a, h.freeObjects, headers[s].freeObjects, free[s]);
      }
    }
  }

  /** Changing a header but for its link and size leaves the lists of slabs alone. */
  lemma CacheListsKeep(headers: map<nat, Header>, heads: seq<nat>, chains: seq<seq<nat>>, adding: nat, slab: nat,
                       header: Header)
    requires CacheLists(headers, heads, chains, adding) && slab in headers
    requires header.next == headers[slab].next && header.size == headers[slab].size
    ensures CacheLists(headers[slab := header], heads, chains, adding)
  {
    var headers' := headers[slab := header];
    forall i | 0 <= i < CACHES
      ensures SlabChain(headers', heads[i], chains[i])
    {
      assert SlabChain(headers, heads[i], chains[i]);
      forall j | 0 <= j < |chains[i]|
        ensures SlabLinkedAt(headers', chains[i], j)
      {
        assert SlabLinkedAt(headers, chains[i], j);
      }
    }
    assert forall s | s in headers' && s != adding :: s in headers && InChain(chains, s);
  }

  /** A free object lies in its slab's page. */
  lemma FreeObjectsElsewhere(h: Heap, a: nat)
    requires HeapSound(h) && SizeAt(h, a) > 0
    ensures forall s | s in h.headers && s in h.freeObjs :: a !in h.freeObjs[s]
  {
    forall s | s in h.headers && s in h.freeObjs
      ensures a !in h.freeObjs[s]
    {
      assert IsSlabPage(h, s) && FreeObjectsSound(h, s);
      if a in h.freeObjs[s] {
        SlotInPage(s, h.headers[s].size, a);
      }
    }
  }

  lemma SlabPageOf(h: Heap, a: nat)
    requires HeapSound(h) && SizeAt(h, a) > 0
    ensures PageBase(a) == PageStart(a)
    ensures PageStart(a) in h.headers ==>
              PageStart(a) in h.freeObjs && SizeAt(h, a) == h.headers[PageStart(a)].size
  {
    ObjectsInPool(h, a);
    PageBaseValue(a);
  }

  /** Linking new objects elsewhere leaves the lists of the other slabs alone. */
  lemma AddObjectLists(headers: map<nat, Header>, next: map<nat, nat>, next': map<nat, nat>, free: map<nat, seq<nat>>,
                       slab: nat, header: Header, objs: seq<nat>)
    requires ObjectLists(headers, next, free) && slab !in headers
    requires ObjectChain(next', header.freeObjects, objs) && header.numFree == |objs|
    requires forall a | a in next && a !in objs :: a in next' && next'[a] == next[a]
    requires forall s, a | s in headers && s in free && a in free[s] :: a !in objs
    ensures ObjectLists(headers[slab := header], next', free[slab := objs])
  {
    var headers', free' := headers[slab := header], free[slab := objs];
    forall s | s in headers'
      ensures ObjectList(headers', next', free', s)
    {
      if s != slab {
        assert ObjectList(headers, next, free, s);
        forall i | 0 <= i < |free[s]|
          ensures LinkedAt(next', free[s], i)
        {
          assert LinkedAt(next, free[s], i) && free[s][i] in free[s];
        }
      }
    }
  }

  lemma RelinkObjectLists(headers: map<nat, Header>, next: map<nat, nat>, free: map<nat, seq<nat>>, slab: nat,
                          link: nat)
    requires ObjectLists(headers, next, free) && slab in headers
    ensures ObjectLists(headers[slab := headers[slab].(next := link)], next, free)
  {
    var headers' := headers[slab := headers[slab].(next := link)];
    forall s | s in headers'
      ensures ObjectList(headers', next, free, s)
    {
      assert ObjectList(headers, next, free, s);
    }
  }

  lemma CacheListsNew(headers: map<nat, Header>, heads: seq<nat>, chains: seq<seq<nat>>, slab: nat, header: Header)
    requires CacheLists(headers, heads, chains, 0) && slab !in headers && 0 !in headers
    ensures CacheLists(headers[slab := header], heads, chains, slab)
    ensures forall i | 0 <= i < CACHES :: slab !in chains[i]
  {
    var headers' := headers[slab := header];
    forall i | 0 <= i < CACHES
      ensures SlabChain(headers', heads[i], chains[i])
    {
      assert SlabChain(headers, heads[i], chains[i]);
      SlabChainFrame(headers, headers', heads[i], chains[i], slab);
    }
    assert forall s | s in headers' && s != slab :: s in headers && InChain(chains, s);
  }

  /** A new slab becomes the first of its cache's list. */
  lemma CacheListsAdd(headers: map<nat, Header>, heads: seq<nat>, chains: seq<seq<nat>>, slab: nat, i: nat)
    requires CacheLists(headers, heads, chains, slab) && slab in headers && slab > 0 && i < CACHES
    requires headers[slab].size == ObjSize(i) && forall j | 0 <= j < CACHES :: slab !in chains[j]
    ensures |chains| == CACHES
    ensures CacheLists(headers[slab := headers[slab].(next := heads[i])], heads[i := slab],
                       chains[i := [slab] + chains[i]], 0)
  {
    var headers' := headers[slab := headers[slab].(next := heads[i])];
    var chains', heads' := chains[i := [slab] + chains[i]], heads[i := slab];
    forall j | 0 <= j < CACHES
      ensures SlabChain(headers', heads'[j], chains'[j])
    {
      assert SlabChain(headers, heads[j], chains[j]);
      if j == i {
        SlabChainPushed(headers, headers', heads[i], chains[i], slab);
      } else {
        SlabChainFrame(headers, headers', heads[j], chains[j], slab);
      }
    }
    forall s | s in headers'
      ensures InChain(chains', s)
    {
      if s == slab {
        assert slab in chains'[i];
      } else {
        assert InChain(chains, s);
        var j :| 0 <= j < |chains| && s in chains[j];
        assert s in chains'[j];
      }
    }
  }

  lemma SlabChainFrame(headers: map<nat, Header>, headers': map<nat, Header>, first: nat, l: seq<nat>, slab: nat)
    requires SlabChain(headers, first, l) && slab !in l
    requires forall s | s in headers && s != slab :: s in headers' && headers'[s] == headers[s]
    ensures SlabChain(headers', first, l)
  {
    forall i | 0 <= i < |l|
      ensures SlabLinkedAt(headers', l, i)
    {
      assert SlabLinkedAt(headers, l, i) && l[i] in l;
    }
  }

  lemma SlabChainPushed(headers: map<nat, Header>, headers': map<nat, Header>, first: nat, l: seq<nat>, slab: nat)
    requires SlabChain(headers, first, l) && slab !in l && slab > 0
    requires slab in headers' && headers'[slab].next == first
    requires forall s | s in headers && s != slab :: s in headers' && headers'[s] == headers[s]
    ensures SlabChain(headers', slab, [slab] + l)
  {
    var l' := [slab] + l;
    forall i | 0 <= i < |l'|
      ensures SlabLinkedAt(headers', l', i)
    {
      if i > 0 {
        assert SlabLinkedAt(headers, l, i - 1) && l[i - 1] in l;
      }
    }
  }

  lemma NextSlot(first: nat, size: nat, count: nat, i: nat)
    requires i + 1 < count
    ensures Slots(first, size, count)[i + 1] == Slots(first, size, count)[i] + size
  {
    SumOfFactors(i, 1, size);
  }

  /** Writing the link of object i keeps the links before it. */
  lemma LinkedPrefix(next: map<nat, nat>, next': map<nat, nat>, l: seq<nat>, i: nat)
    requires Distinct(l) && i < |l| && forall j | 0 <= j < i :: LinkedAt(next, l, j)
    requires next' == next[l[i] := if i + 1 < |l| then l[i + 1] else 0]
    ensures forall j | 0 <= j <= i :: LinkedAt(next', l, j)
  {
    forall j | 0 <= j <= i
      ensures LinkedAt(next', l, j)
    {
      if j < i {
        assert LinkedAt(next, l, j) && l[j] != l[i];
      }
    }
  }

  lemma TakenPage(live: map<nat, nat>, b: Blocks, p: nat)
    requires LiveBlocks(b) == live[p := 0]
    ensures p in b
  {
    assert p in LiveBlocks(b);
  }

  /** Free objects of other slabs are not objects of this one. */
  lemma SlabsApart(h: Heap, slab: nat)
    requires HeapSound(h) && slab in h.headers && slab in h.freeObjs
    ensures forall s, a | s in h.headers && s in h.freeObjs && s != slab && a in h.freeObjs[s] :: a !in h.freeObjs[slab]
  {
    forall s, a | s in h.headers && s in h.freeObjs && s != slab && a in h.freeObjs[s]
      ensures a !in h.freeObjs[slab]
    {
      assert IsSlabPage(h, s) && FreeObjectsSound(h, s) && IsSlabPage(h, slab) && FreeObjectsSound(h, slab);
      SlotInPage(s, h.headers[s].size, a);
      if a in h.freeObjs[slab] {
        SlotInPage(slab, h.headers[slab].size, a);
      }
    }
  }

  lemma NoSlabAtNull(h: Heap)
    requires HeapSound(h)
    ensures 0 !in h.headers
  {
    assert forall s | s in h.headers :: IsSlabPage(h, s);
  }

  /** A page turned into a slab of free objects joins the other slabs. */
  lemma NewSlab(h: Heap, blocks': Blocks, p: nat, header: Header, next: map<nat, nat>, next': map<nat, nat>,
                heads: seq<nat>, chains: seq<seq<nat>>)
    requires HeapSound(h) && Sound(blocks', h.start / PAGE_SIZE, h.pages)
    requires p !in h.Live() && LiveBlocks(blocks') == h.Live()[p := 0]
    requires IsObjSize(header.size) && header.numFree == ObjCount(header.size)
    requires ObjectLists(h.headers, next, h.freeObjs) && CacheLists(h.headers, heads, chains, 0)
    requires var objs := Slots(h.start + p * PAGE_SIZE + FirstOffset(header.size), header.size, ObjCount(header.size));
             && ObjectChain(next', header.freeObjects, objs)
             && (forall a | a in next && a !in objs :: a in next' && next'[a] == next[a])
    ensures var slab := h.start + p * PAGE_SIZE;
            var objs := Slots(slab + FirstOffset(header.size), header.size, ObjCount(header.size));
            && slab !in h.headers && slab > 0
            && HeapSound(WithSlab(h.(blocks := blocks'), slab, header, objs))
            && SameSizes(h, WithSlab(h.(blocks := blocks'), slab, header, objs))
            && ObjectLists(h.headers[slab := header], next', h.freeObjs[slab := objs])
            && CacheLists(h.headers[slab := header], heads, chains, slab)
            && (forall j | 0 <= j < CACHES :: slab !in chains[j])
  {
    hide HeapSound, ObjectLists, CacheLists, SameSizes, Sound, ObjectChain;
    var slab := h.start + p * PAGE_SIZE;
    var objs := Slots(slab + FirstOffset(header.size), header.size, ObjCount(header.size));
    SlabAdded(h, blocks', p, header);
    SlabsApart(WithSlab(h.(blocks := blocks'), slab, header, objs), slab);
    NoSlabAtNull(WithSlab(h.(blocks := blocks'), slab, header, objs));
    NoSlabAtNull(h);
    forall s, a | s in h.headers && s in h.freeObjs && a in h.freeObjs[s]
      ensures a !in objs
    {
      assert s != slab && WithSlab(h.(blocks := blocks'), slab, header, objs).freeObjs[s] == h.freeObjs[s];
    }
    AddObjectLists(h.headers, next, next', h.freeObjs, slab, header, objs);
    CacheListsNew(h.headers, heads, chains, slab, header);
  }

  /** The slab mark of a descriptor says whether its page is a slab. */
  ghost predicate Marked(start: nat, marks: seq<bool>, pages: nat, headers: map<nat, Header>) {
    |marks| == pages && forall p: nat | p < pages :: marks[p] <==> p * PAGE_SIZE + start in headers
  }

  lemma MarkSlab(start: nat, marks: seq<bool>, pages: nat, headers: map<nat, Header>, p: nat, header: Header)
    requires Marked(start, marks, pages, headers) && p < pages
    ensures Marked(start, marks[p := true], pages, headers[p * PAGE_SIZE + start := header])
  {}

  lemma Remark(start: nat, marks: seq<bool>, pages: nat, headers: map<nat, Header>, slab: nat, header: Header)
    requires Marked(start, marks, pages, headers) && slab in headers
    ensures Marked(start, marks, pages, headers[slab := header])
  {}

  lemma ListedSlab(h: Heap, slab: nat)
    requires HeapSound(h) && slab in h.headers
    ensures slab in h.freeObjs && IsObjSize(h.headers[slab].size)
  {
    assert IsSlabPage(h, slab) && FreeObjectsSound(h, slab);
  }

  /** A slab of the given object size has a free object. */
  ghost predicate HasFreeObject(headers: map<nat, Header>, size: nat) {
    exists s :: s in headers && headers[s].size == size && headers[s].numFree > 0
  }

  /** The slab at place j of a list is the first one that is not full. */
  ghost predicate FirstWithFree(headers: map<nat, Header>, l: seq<nat>, j: nat) {
    && j < |l| && l[j] in headers && headers[l[j]].numFree > 0
    && (forall m | 0 <= m < j :: l[m] in headers && headers[l[m]].numFree == 0)
  }

  /** The first cache whose objects are large enough has the smallest such objects. */
  lemma CacheOfSize(size: nat, i: nat)
    requires 0 < size <= 2048 && i <= CACHES && (i < CACHES ==> size <= ObjSize(i))
    requires forall j | 0 <= j < i :: ObjSize(j) < size
    ensures i < CACHES && ObjSize(i) == ServedSize(size)
  {
    var sizes := [8, 16, 32, 64, 128, 256, 512, 1024, 2048];
    assert Pow2(1) == 2 && Pow2(2) == 4 && Pow2(3) == 8 && Pow2(4) == 16 && Pow2(5) == 32;
    assert Pow2(6) == 64 && Pow2(7) == 128 && Pow2(8) == 256;
    assert ObjSize(0) == 8 && ObjSize(1) == 16 && ObjSize(2) == 32 && ObjSize(3) == 64 && ObjSize(4) == 128;
    assert ObjSize(5) == 256 && ObjSize(6) == 512 && ObjSize(7) == 1024 && ObjSize(8) == 2048;
  }

  /** Sizes that only the tenth cache serves; behind the header of its slabs no object fits. */
  lemma TenthCache(size: nat, i: nat)
    requires 0 < size < PAGE_SIZE && i <= CACHES && (i < CACHES ==> size <= ObjSize(i))
    requires forall j | 0 <= j < i :: ObjSize(j) < size
    ensures i < CACHES && (size > 2048 <==> i == CACHES - 1) && (size > 2048 <==> ObjSize(i) == PAGE_SIZE)
  {
    assert Pow2(1) == 2 && Pow2(2) == 4 && Pow2(3) == 8 && Pow2(4) == 16 && Pow2(5) == 32;
    assert Pow2(6) == 64 && Pow2(7) == 128 && Pow2(8) == 256 && Pow2(9) == 512;
    assert ObjSize(0) == 8 && ObjSize(1) == 16 && ObjSize(2) == 32 && ObjSize(3) == 64 && ObjSize(4) == 128;
    assert ObjSize(5) == 256 && ObjSize(6) == 512 && ObjSize(7) == 1024 && ObjSize(8) == 2048;
    assert ObjSize(9) == PAGE_SIZE;
    assert i in {0, 1, 2, 3, 4, 5, 6, 7, 8, 9, 10};
  }

  /** The tenth cache has no slab. */
  lemma NoLargeSlab(h: Heap, heads: seq<nat>, chains: seq<seq<nat>>, i: nat)
    requires HeapSound(h) && CacheLists(h.headers, heads, chains, 0) && i < CACHES && ObjSize(i) == PAGE_SIZE
    ensures chains[i] == [] && heads[i] == 0
  {
    if chains[i] != [] {
      assert chains[i][0] in chains[i];
      ListedSlab(h, chains[i][0]);
    }
    assert SlabChain(h.headers, heads[i], chains[i]);
  }

  lemma InCacheSize(headers: map<nat, Header>, heads: seq<nat>, chains: seq<seq<nat>>, i: nat, slab: nat)
    requires CacheLists(headers, heads, chains, 0) && i < CACHES && slab in chains[i]
    ensures slab in headers && headers[slab].size == ObjSize(i)
  {}

  /** When the slabs of a cache's list are full, no slab of that object size has a free object. */
  lemma AllFull(headers: map<nat, Header>, heads: seq<nat>, chains: seq<seq<nat>>, i: nat)
    requires CacheLists(headers, heads, chains, 0) && i < CACHES && 0 !in headers
    requires forall s | s in chains[i] :: s in headers && headers[s].numFree == 0
    ensures !HasFreeObject(headers, ObjSize(i))
  {
    forall s | s in headers && headers[s].size == ObjSize(i)
      ensures headers[s].numFree == 0
    {
      assert InChain(chains, s);
      var j :| 0 <= j < |chains| && s in chains[j];
      SizesDiffer(i, j);
    }
  }

  lemma SizesDiffer(i: nat, j: nat)
    requires ObjSize(i) == ObjSize(j)
    ensures i == j
  {
    if i < j {
      Pow2Mono(i, j);
    } else if j < i {
      Pow2Mono(j, i);
    }
  }

  lemma PlacedBetween(h: Heap, h1: Heap, h2: Heap, h': Heap, a: nat, size: nat)
    requires SameSizes(h, h1) && Placed(h1, h2, a, size) && SameSizes(h2, h')
    ensures Placed(h, h', a, size)
  {
    hide SizeAt;
  }

  /** The largest block, `(1 << MAX_ORDER) * PAGE_SIZE`. */
  const MAX_BLOCK: nat := 0x100_0000

  lemma OrderOfBlock(k: nat, k': nat)
    requires FitsOrder(Pow2(k) * PAGE_SIZE, k')
    ensures k' == k
  {
    if k < k' {
      Pow2Mono(k, k' - 1);
    } else if k' < k {
      Pow2Mono(k', k);
    }
  }

  lemma SameOrder(size: nat, k: nat)
    requires size == Pow2(k) * PAGE_SIZE
    ensures forall i: nat | size == Pow2(i) * PAGE_SIZE :: i == k
  {
    forall i: nat | size == Pow2(i) * PAGE_SIZE
      ensures i == k
    {
      OrderOfBlock(k, i);
    }
  }

  /** What the rounded size says of a request. */
  lemma Rounding(size: nat, rounded: nat, j: nat)
    requires rounded == Pow2(j) && j >= 3 && size <= rounded && (j > 3 ==> Pow2(j - 1) < size)
    ensures RoundsTo(size, rounded)
    ensures rounded < PAGE_SIZE ==>
              && 0 < rounded <= 2048 && ServedSize(rounded) == rounded
              && forall k: nat :: rounded != Pow2(k) * PAGE_SIZE
    ensures rounded >= PAGE_SIZE ==> j >= PAGE_SHIFT && rounded == Pow2(j - PAGE_SHIFT) * PAGE_SIZE
    ensures rounded > MAX_BLOCK ==> j - PAGE_SHIFT > MAX_ORDER
  {
    assert RoundsToPower(size, rounded, j);
    PageSize();
    assert Pow2(MAX_ORDER) * PAGE_SIZE == MAX_BLOCK;
    if j < PAGE_SHIFT {
      assert j in {3, 4, 5, 6, 7, 8, 9, 10, 11};
      assert Pow2(3) == 8 && Pow2(4) == 16 && Pow2(5) == 32 && Pow2(6) == 64 && Pow2(7) == 128;
      assert Pow2(8) == 256 && Pow2(9) == 512 && Pow2(10) == 1024 && Pow2(11) == 2048;
    } else {
      Pow2Mono(PAGE_SHIFT, j);
      Pow2Add(j - PAGE_SHIFT, PAGE_SHIFT);
      if j - PAGE_SHIFT <= MAX_ORDER {
        Pow2Mono(j - PAGE_SHIFT, MAX_ORDER);
      }
    }
  }

  /** The least power of two that is not below the size and at least 8. */
  lemma RoundsMeans(size: nat, rounded: nat)
    requires RoundsTo(size, rounded)
    ensures size <= rounded && 8 <= rounded && (rounded > 8 ==> rounded < 2 * size)
    ensures exists k: nat :: rounded == Pow2(k)
  {
    var k: nat :| RoundsToPower(size, rounded, k);
    RoundedUp(size, k);
  }

  lemma RoundedUp(size: nat, j: nat)
    requires j >= 3 && (j > 3 ==> Pow2(j - 1) < size)
    ensures 8 <= Pow2(j) && (Pow2(j) > 8 ==> Pow2(j) < 2 * size)
  {
    assert Pow2(0) == 1 && Pow2(1) == 2 && Pow2(2) == 4 && Pow2(3) == 8;
    Pow2Mono(3, j);
  }

  lemma NothingSoLarge(b: Blocks, base: nat, k: nat)
    requires Aligned(b, base) && k > MAX_ORDER
    ensures NoneFree(b, k)
  {}

  lemma MarkOf(start: nat, marks: seq<bool>, pages: nat, headers: map<nat, Header>, p: nat)
    requires Marked(start, marks, pages, headers) && p < pages
    ensures |marks| == pages && (marks[p] <==> p * PAGE_SIZE + start in headers)
  {}

  /** A live object outside the slabs is a block. */
  lemma LiveBlockAt(h: Heap, a: nat)
    requires SizeAt(h, a) > 0 && PageStart(a) !in h.headers
    ensures a == PageStart(a) && a >= h.start && PageIndex(h.start, a) in h.Live()
    ensures SizeAt(h, a) == Pow2(h.Live()[PageIndex(h.start, a)]) * PAGE_SIZE
  {}

  class Allocator {
    const pool: BuddyPool
    /** `g_caches[i].slabs`. */
    const cacheSlabs: array<nat>
    var headers: map<nat, Header>
    var nextObj: map<nat, nat>
    ghost var freeObjs: map<nat, seq<nat>>
    ghost var chains: seq<seq<nat>>

    ghost function Snapshot(): Heap
      reads this`headers, this`freeObjs, pool`blocks
    {
      Heap(pool.start, pool.pages, pool.blocks, headers, freeObjs)
    }

    ghost predicate Flags()
      reads this`headers, pool.slab
    {
      Marked(pool.start, pool.slab[..], pool.pages, headers)
    }

    ghost predicate ListsValid(adding: nat)
      reads this`headers, this`nextObj, this`freeObjs, this`chains, cacheSlabs
    {
      && cacheSlabs.Length == CACHES
      && ObjectLists(headers, nextObj, freeObjs)
      && CacheLists(headers, cacheSlabs[..], chains, adding)
    }

    ghost predicate Separate()
      reads pool.links
    {
      && pool.Geometry()
      && cacheSlabs != pool.order && cacheSlabs != pool.links.next && cacheSlabs != pool.links.prev
      && cacheSlabs as object != pool.nrFree
    }

    ghost predicate ValidBut(adding: nat)
      reads this`headers, this`nextObj, this`freeObjs, this`chains, cacheSlabs, pool`blocks, pool`lists, pool.slab
      reads pool.links, pool.order, pool.free, pool.nrFree, pool.links.next, pool.links.prev
    {
      pool.Valid() && Separate() && HeapSound(Snapshot()) && Flags() && ListsValid(adding)
    }

    ghost predicate Valid()
      reads this`headers, this`nextObj, this`freeObjs, this`chains, cacheSlabs, pool`blocks, pool`lists, pool.slab
      reads pool.links, pool.order, pool.free, pool.nrFree, pool.links.next, pool.links.prev
    {
      ValidBut(0)
    }

    lemma Parts(adding: nat)
      requires ValidBut(adding)
      ensures pool.Valid() && Separate() && HeapSound(Snapshot())
      ensures Marked(pool.start, pool.slab[..], pool.pages, headers)
      ensures cacheSlabs.Length == CACHES && ObjectLists(headers, nextObj, freeObjs)
      ensures CacheLists(headers, cacheSlabs[..], chains, adding)
    {}

    lemma IsValidBut(adding: nat)
      requires pool.Valid() && Separate() && HeapSound(Snapshot())
      requires Marked(pool.start, pool.slab[..], pool.pages, headers)
      requires cacheSlabs.Length == CACHES && ObjectLists(headers, nextObj, freeObjs)
      requires CacheLists(headers, cacheSlabs[..], chains, adding)
      ensures ValidBut(adding)
    {}

    /** `buddy_pool_init` and `slab_allocator_init`: no slabs and no live objects. */
    constructor (areaStart: nat, areaEnd: nat)
      requires areaStart % PAGE_SIZE == 0 && areaEnd % PAGE_SIZE == 0
      requires 0 < areaStart <= areaEnd < 0x1_0000_0000_0000_0000
      requires (areaEnd - areaStart) / 4096 <= 0x8_0000
      ensures Valid() && !pool.locked && headers == map[]
      ensures forall a: nat :: SizeAt(Snapshot(), a) == 0
    {
      pool := new BuddyPool(areaStart, areaEnd);
      cacheSlabs := new nat[CACHES](i => 0);
      headers := map[];
      nextObj := map[];
      freeObjs := map[];
      chains := seq(CACHES, i => []);
      new;
      hide BuddyPool.Working;
      pool.ListRing(0);
      pool.ListsMatch();
      DescriptorsFit(areaStart, areaEnd);
    }

    /** Takes the first free object of a slab. */
    method Pop(slab: nat, ghost adding: nat) returns (obj: nat)
      requires ValidBut(adding) && slab in headers && headers[slab].numFree > 0
      modifies this`headers, this`freeObjs
      ensures ValidBut(adding)
      ensures Placed(old(Snapshot()), Snapshot(), obj, old(headers[slab].size))
      ensures slab in old(freeObjs) && slab in freeObjs && old(freeObjs)[slab] == [obj] + freeObjs[slab]
      ensures headers.Keys == old(headers.Keys)
      ensures forall s | s in headers :: headers[s].size == old(headers)[s].size
    {
      hide BuddyPool.Working, HeapSound, ObjectLists, CacheLists, Placed;
      var header := headers[slab];
      PopObjectLists(headers, nextObj, freeObjs, slab);
      obj := header.freeObjects;
      var header' := header.(freeObjects := nextObj[obj], numFree := header.numFree - 1);
      ObjectTaken(Snapshot(), slab, header');
      CacheListsKeep(headers, cacheSlabs[..], chains, adding, slab, header');
      headers := headers[slab := header'];
      freeObjs := freeObjs[slab := freeObjs[slab][1..]];
    }

    /** `slab_free`. */
    method SlabFree(addr: nat)
      requires Valid() && SizeAt(Snapshot(), addr) > 0 && PageStart(addr) in headers
      modifies this`headers, this`freeObjs, this`nextObj
      ensures Valid()
      ensures Placed(Snapshot(), old(Snapshot()), addr, old(SizeAt(Snapshot(), addr)))
      ensures PageStart(addr) in old(freeObjs) && headers.Keys == old(headers.Keys)
      ensures freeObjs == old(freeObjs)[PageStart(addr) := [addr] + old(freeObjs)[PageStart(addr)]]
    {
      hide BuddyPool.Working, HeapSound, ObjectLists, CacheLists, Marked, Placed, PageBase, PageStart, SizeAt, ValidBut;
      Parts(0);
      SlabPageOf(Snapshot(), addr);
      FreeObjectsElsewhere(Snapshot(), addr);
      var slab := PageBase(addr);
      PushObjectLists(headers, nextObj, freeObjs, slab, addr);
      var header := headers[slab];
      var header' := header.(freeObjects := addr, numFree := header.numFree + 1);
      ObjectFreed(Snapshot(), slab, header', addr);
      CacheListsKeep(headers, cacheSlabs[..], chains, 0, slab, header');
      Remark(pool.start, pool.slab[..], pool.pages, headers, slab, header');
      nextObj := nextObj[addr := header.freeObjects];
      headers := headers[slab := header'];
      freeObjs := freeObjs[slab := [addr] + freeObjs[slab]];
      IsValidBut(0);
    }

    /** The linking loop of `allocate_slab`. */
    method LinkObjects(first: nat, size: nat, count: nat)
      requires count > 0 && size > 0
      modifies this`nextObj
      ensures ObjectChain(nextObj, first, Slots(first, size, count))
      ensures forall a | a in old(nextObj) && a !in Slots(first, size, count) ::
                a in nextObj && nextObj[a] == old(nextObj)[a]
    {
      var obj, i := first, 0;
      ghost var objs, next0 := Slots(first, size, count), nextObj;
      SlotsDistinct(first, size, count);
      while i < count - 1
        invariant 0 <= i < count && obj == objs[i]
        invariant forall j | 0 <= j < i :: LinkedAt(nextObj, objs, j)
        invariant forall a | a in next0 && a !in objs :: a in nextObj && nextObj[a] == next0[a]
      {
        NextSlot(first, size, count, i);
        var next' := nextObj[obj := obj + size];
        LinkedPrefix(nextObj, next', objs, i);
        nextObj := next';
        obj := obj + size;
        i := i + 1;
      }
      var next' := nextObj[obj := 0];
      LinkedPrefix(nextObj, next', objs, i);
      nextObj := next';
    }

    /** `find_cache`: the first cache whose objects are large enough. */
    method FindCache(size: nat) returns (i: nat)
      ensures i <= CACHES && (i < CACHES ==> size <= ObjSize(i))
      ensures forall j | 0 <= j < i :: ObjSize(j) < size
    {
      i := 0;
      while i < CACHES && ObjSize(i) < size
        invariant i <= CACHES
        invariant forall j | 0 <= j < i :: ObjSize(j) < size
      {
        i := i + 1;
      }
    }

    /** The walk over a cache's slabs in `slab_alloc`; NULL when all of them are full. */
    method FindSlab(i: nat) returns (slab: nat)
      requires ListsValid(0) && i < CACHES
      ensures slab == 0 ==> forall s | s in chains[i] :: s in headers && headers[s].numFree == 0
      ensures slab != 0 ==> slab in headers && slab in chains[i] && headers[slab].numFree > 0
      ensures slab != 0 ==> exists j | 0 <= j < |chains[i]| ::
              FirstWithFree(headers, chains[i], j) && chains[i][j] == slab
      ensures slab != 0 ==> exists j | 0 <= j < |chains[i]| ::
              chains[i][j] == slab && forall m | 0 <= m < j :: headers[chains[i][m]].numFree == 0
    {
      slab := cacheSlabs[i];
      ghost var j, l := 0, chains[i];
      assert SlabChain(headers, cacheSlabs[..][i], chains[i]);
      while slab != 0
        invariant j <= |l| && slab == if j < |l| then l[j] else 0
        invariant forall m | 0 <= m < j :: l[m] in headers && headers[l[m]].numFree == 0
        decreases |l| - j
      {
        assert SlabLinkedAt(headers, l, j);
        if headers[slab].numFree > 0 {
          assert FirstWithFree(headers, l, j);
          return;
        }
        slab := headers[slab].next;
        j := j + 1;
        assert j < |l| ==> SlabLinkedAt(headers, l, j);
      }
      assert j < |l| ==> SlabLinkedAt(headers, l, j);
    }

    /** A page of the buddy system for a new slab. */
    method TakePage() returns (page: nat)
      requires Valid() && !pool.locked && !NoneFree(pool.blocks, 0)
      modifies pool.Footprint()
      ensures pool.Valid() && !pool.locked && Sound(pool.blocks, pool.Base(), pool.pages)
      ensures page >= pool.start && page % PAGE_SIZE == 0 && pool.Addr2Block(page) < pool.pages
      ensures page == pool.Block2Addr(pool.Addr2Block(page))
      ensures pool.Addr2Block(page) !in LiveBlocks(old(pool.blocks))
      ensures LiveBlocks(pool.blocks) == LiveBlocks(old(pool.blocks))[pool.Addr2Block(page) := 0]
    {
      hide BuddyPool.Working, NoneFree, FitsOrder, HeapSound, ObjectLists, CacheLists, HalvesPushed, Marked, Sound;
      hide LiveBlocks;
      var addr; ghost var k, from;
      addr, k, from := pool.BuddyAlloc(PAGE_SIZE);
      PageOrders(k);
      page := addr.value;
      pool.ListsMatch();
      TakenPage(LiveBlocks(old(pool.blocks)), pool.blocks, pool.Addr2Block(page));
      pool.HeadDescribed(pool.Addr2Block(page));
    }

    /** The rest of `allocate_slab`: the page becomes a slab of free objects. */
    method FillSlab(slab: nat, size: nat, ghost h: Heap)
      requires pool.Valid() && Separate() && Flags() && ListsValid(0) && HeapSound(h)
      requires h == Snapshot().(blocks := h.blocks) && Sound(pool.blocks, pool.Base(), pool.pages) && IsObjSize(size)
      requires slab >= pool.start && slab % PAGE_SIZE == 0 && pool.Addr2Block(slab) < pool.pages
      requires slab == pool.Block2Addr(pool.Addr2Block(slab)) && pool.Addr2Block(slab) !in h.Live()
      requires LiveBlocks(pool.blocks) == h.Live()[pool.Addr2Block(slab) := 0]
      modifies this`headers, this`nextObj, this`freeObjs, pool.slab
      ensures slab > 0 && ValidBut(slab)
      ensures slab !in old(headers) && headers.Keys == old(headers.Keys) + {slab}
      ensures headers[slab].size == size && headers[slab].numFree > 0
      ensures slab in freeObjs && |freeObjs[slab]| == headers[slab].numFree
      ensures forall a: nat ::
                a in freeObjs[slab] <==> a % size == 0 && slab + 40 <= a && a + size <= slab + 4096
      ensures forall s | s in old(headers) :: headers[s] == old(headers)[s]
      ensures forall j | 0 <= j < CACHES :: slab !in chains[j]
      ensures SameSizes(h, Snapshot())
    {
      hide BuddyPool.Working, HeapSound, ObjectLists, CacheLists, SameSizes, LiveBlocks, Marked;
      hide ObjectChain, Slots, FirstOffset, Sound, AlignTo, ObjCount;
      var block := pool.Addr2Block(slab);
      pool.slab[block] := true;
      var first := AlignTo(slab + HEADER_SIZE, size);
      SlabLayout(slab, size);
      var count := (PAGE_SIZE - (first - slab)) / size;
      LinkObjects(first, size, count);
      var garbage: nat := *;
      ghost var header, objs := Header(garbage, first, count, size), Slots(first, size, count);
      MarkSlab(pool.start, old(pool.slab[..]), pool.pages, headers, block, header);
      NewSlab(h, pool.blocks, block, header, old(nextObj), nextObj, cacheSlabs[..], chains);
      headers := headers[slab := Header(garbage, first, count, size)];
      freeObjs := freeObjs[slab := objs];
      forall a: nat
        ensures a in freeObjs[slab] <==> a % size == 0 && slab + 40 <= a && a + size <= slab + 4096
      {
        SlotOfPage(slab, size, a);
      }
    }

    /** `allocate_slab`: a page of the buddy system becomes a slab of free objects. The link of its
        header is whatever the page held. */
    method AllocateSlab(size: nat) returns (slab: nat)
      requires Valid() && !pool.locked && IsObjSize(size) && !NoneFree(pool.blocks, 0)
      modifies this`headers, this`nextObj, this`freeObjs, pool.Footprint(), pool.slab
      ensures slab > 0 && ValidBut(slab) && !pool.locked
      ensures slab !in old(headers) && headers.Keys == old(headers.Keys) + {slab}
      ensures headers[slab].size == size && headers[slab].numFree > 0
      ensures slab in freeObjs && |freeObjs[slab]| == headers[slab].numFree
      ensures forall a: nat ::
                a in freeObjs[slab] <==> a % size == 0 && slab + 40 <= a && a + size <= slab + 4096
      ensures forall s | s in old(headers) :: headers[s] == old(headers)[s]
      ensures forall j | 0 <= j < CACHES :: slab !in chains[j]
      ensures SameSizes(old(Snapshot()), Snapshot())
    {
      hide BuddyPool.Working, HeapSound, ObjectLists, CacheLists, SameSizes, NoneFree, LiveBlocks, Marked, Sound;
      ghost var h := Snapshot();
      slab := TakePage();
      FillSlab(slab, size, h);
    }

    /** The new slab goes to the front of its cache's list. */
    method Publish(slab: nat, i: nat)
      requires ValidBut(slab) && slab in headers && slab > 0 && i < CACHES && headers[slab].size == ObjSize(i)
      requires forall j | 0 <= j < CACHES :: slab !in chains[j]
      modifies this`headers, this`chains, cacheSlabs
      ensures Valid() && headers.Keys == old(headers.Keys)
      ensures SameSizes(old(Snapshot()), Snapshot())
    {
      hide BuddyPool.Working, HeapSound, ObjectLists, CacheLists, SameSizes, Marked, ObjSize;
      var header := headers[slab].(next := cacheSlabs[i]);
      ListedSlab(Snapshot(), slab);
      HeaderRelinked(Snapshot(), slab, header);
      RelinkObjectLists(headers, nextObj, freeObjs, slab, cacheSlabs[i]);
      CacheListsAdd(headers, cacheSlabs[..], chains, slab, i);
      Remark(pool.start, pool.slab[..], pool.pages, headers, slab, header);
      assert freeObjs == freeObjs[slab := freeObjs[slab]];
      headers := headers[slab := header];
      chains := chains[i := [slab] + chains[i]];
      cacheSlabs[i] := slab;
    }

    /** The end of `slab_alloc`, with all slabs of cache i full: the first object of a new slab. */
    method AllocFromNew(i: nat) returns (obj: nat)
      requires Valid() && !pool.locked && i < CACHES && IsObjSize(ObjSize(i)) && !NoneFree(pool.blocks, 0)
      modifies this`headers, this`nextObj, this`freeObjs, this`chains, cacheSlabs, pool.Footprint(), pool.slab
      ensures Valid() && !pool.locked && Placed(old(Snapshot()), Snapshot(), obj, ObjSize(i))
      ensures |headers| == |old(headers)| + 1
    {
      hide Valid, ValidBut, SameSizes, ObjSize, Placed, NoneFree;
      ghost var h := Snapshot();
      var slab := AllocateSlab(ObjSize(i));
      ghost var h1 := Snapshot();
      obj := Pop(slab, slab);
      ghost var h2 := Snapshot();
      Publish(slab, i);
      PlacedBetween(h, h1, h2, Snapshot(), obj, ObjSize(i));
      assert headers.Keys == old(headers.Keys) + {slab};
    }

    /** The part of `slab_alloc` behind its size test: from the first cache with large enough objects. */
    method AllocObject(size: nat) returns (obj: nat)
      requires Valid() && !pool.locked && 0 < size <= 2048
      requires !NoneFree(pool.blocks, 0) || HasFreeObject(headers, ServedSize(size))
      modifies this`headers, this`nextObj, this`freeObjs, this`chains, cacheSlabs, pool.Footprint(), pool.slab
      ensures Valid() && !pool.locked
      ensures Placed(old(Snapshot()), Snapshot(), obj, ServedSize(size))
      ensures HasFreeObject(old(headers), ServedSize(size)) ==>
                headers.Keys == old(headers.Keys) && pool.blocks == old(pool.blocks)
      ensures !HasFreeObject(old(headers), ServedSize(size)) ==> |headers| == |old(headers)| + 1
    {
      hide BuddyPool.Working, HeapSound, ObjectLists, CacheLists, Marked, ObjSize, Placed, NoneFree;
      var i := FindCache(size);
      CacheOfSize(size, i);
      var slab := FindSlab(i);
      if slab != 0 {
        InCacheSize(headers, cacheSlabs[..], chains, i, slab);
        obj := Pop(slab, 0);
        return;
      }
      NoSlabAtNull(Snapshot());
      AllFull(headers, cacheSlabs[..], chains, i);
      obj := AllocFromNew(i);
    }

    /** `slab_alloc` from the tenth cache: it has no slab, and in a new one even the first object, to which the loop of
        `allocate_slab` comes with its count of objects wrapped around, lies behind the page. */
    method NoRoom(i: nat) returns (fits: bool)
      requires Valid() && !pool.locked && i < CACHES && ObjSize(i) == PAGE_SIZE && !NoneFree(pool.blocks, 0)
      modifies pool.Footprint()
      ensures !fits
    {
      hide BuddyPool.Working, NoneFree, ObjSize, HeapSound, CacheLists, ObjectLists, LiveBlocks;
      NoLargeSlab(Snapshot(), cacheSlabs[..], chains, i);
      var slab := FindSlab(i);
      assert slab == 0;
      slab := TakePage();
      var obj := AlignTo(slab + HEADER_SIZE, ObjSize(i)) + ObjSize(i);
      fits := obj + ObjSize(i) <= slab + PAGE_SIZE;
    }

    /** `slab_alloc`: NULL for no bytes and for a page or more, otherwise an object of the smallest size that is
        large enough. A new slab is made exactly when all slabs of that size are full. Sizes above 2048 pick the tenth
        cache, whose slabs have no room for an object, so that the assertion in `allocate_slab` fails; `kalloc` never
        asks for them. */
    method SlabAlloc(size: nat) returns (obj: nat, failed: bool)
      requires Valid() && !pool.locked
      requires 0 < size <= 2048 ==> !NoneFree(pool.blocks, 0) || HasFreeObject(headers, ServedSize(size))
      requires 2048 < size < PAGE_SIZE ==> !NoneFree(pool.blocks, 0)
      modifies this`headers, this`nextObj, this`freeObjs, this`chains, cacheSlabs, pool.Footprint(), pool.slab
      ensures failed <==> 2048 < size < PAGE_SIZE
      ensures !failed ==> Valid() && !pool.locked
      ensures size == 0 || size >= PAGE_SIZE ==> obj == 0 && Snapshot() == old(Snapshot())
      ensures 0 < size <= 2048 ==>
                && Placed(old(Snapshot()), Snapshot(), obj, ServedSize(size))
                && (HasFreeObject(old(headers), ServedSize(size)) ==>
                      headers.Keys == old(headers.Keys) && pool.blocks == old(pool.blocks))
                && (!HasFreeObject(old(headers), ServedSize(size)) ==> |headers| == |old(headers)| + 1)
    {
      hide Valid, Placed, HasFreeObject, NoneFree, ServedSize;
      if size == 0 || size >= PAGE_SIZE {
        return 0, false;
      }
      var i := FindCache(size);
      TenthCache(size, i);
      if i == CACHES - 1 {
        var fits := NoRoom(i);
        return 0, !fits;
      }
      failed := false;
      obj := AllocObject(size);
    }

    /** The part of `kalloc` served by the buddy system. */
    method TakeBlock(size: nat, ghost k: nat) returns (addr: Option<nat>)
      requires Valid() && !pool.locked && size == Pow2(k) * PAGE_SIZE <= MAX_REQUEST
      modifies pool.Footprint()
      ensures Valid() && (pool.locked <==> addr == None)
      ensures addr == None <==> NoneFree(old(pool.blocks), k)
      ensures addr.Some? ==> Placed(old(Snapshot()), Snapshot(), addr.value, size)
      ensures addr == None ==> Snapshot() == old(Snapshot())
    {
      hide BuddyPool.Working, HeapSound, ObjectLists, CacheLists, Marked, Placed, NoneFree, FitsOrder, HalvesPushed;
      hide LiveBlocks, Sound;
      ghost var h := Snapshot();
      ghost var k', from;
      addr, k', from := pool.BuddyAlloc(size);
      OrderOfBlock(k, k');
      if addr.Some? {
        pool.ListsMatch();
        BlockTaken(h, pool.blocks, pool.Addr2Block(addr.value), k);
      }
    }

    /** `kalloc`: requests that round to a page and more go to the buddy system, smaller ones to the
        slabs. Beyond the largest block and when no block is large enough it returns NULL, in the
        second case with the allocator's lock held. */
    method Kalloc(size: nat) returns (addr: Option<nat>, ghost rounded: nat)
      requires Valid() && !pool.locked && size <= MAX_REQUEST
      requires !NoneFree(pool.blocks, 0) || forall s: nat | RoundsTo(size, s) && s < PAGE_SIZE ::
               HasFreeObject(headers, s)
      modifies this`headers, this`nextObj, this`freeObjs, this`chains, cacheSlabs, pool.Footprint(), pool.slab
      ensures Valid() && RoundsTo(size, rounded)
      ensures addr.Some? ==> Placed(old(Snapshot()), Snapshot(), addr.value, rounded)
      ensures addr == None ==> Snapshot() == old(Snapshot())
      ensures addr == None <==> exists k: nat :: rounded == Pow2(k) * PAGE_SIZE && NoneFree(old(pool.blocks), k)
      ensures pool.locked <==> addr == None && rounded <= MAX_BLOCK
    {
      hide BuddyPool.Working, HeapSound, ObjectLists, CacheLists, Marked, Placed, NoneFree, HasFreeObject, FitsOrder;
      hide RoundsTo;
      var ret; ghost var j;
      ret, j := AlignSize(size);
      rounded := ret;
      Rounding(size, ret, j);
      RoundedUp(size, j);
      if ret > MAX_BLOCK {
        addr := None;
        pool.ListsMatch();
        NothingSoLarge(pool.blocks, pool.Base(), j - PAGE_SHIFT);
      } else if ret >= PAGE_SIZE {
        addr := TakeBlock(ret, j - PAGE_SHIFT);
        SameOrder(ret, j - PAGE_SHIFT);
      } else {
        var obj, failed := SlabAlloc(ret);
        addr := Some(obj);
      }
      if addr.Some? {
        PlacedMeans(old(Snapshot()), Snapshot(), addr.value, rounded);
      }
    }

    /** `kfree` of a live object: the mark of its page's descriptor tells the layer it came from. */
    method Kfree(addr: nat)
      requires Valid() && !pool.locked && SizeAt(Snapshot(), addr) > 0
      modifies this`headers, this`nextObj, this`freeObjs, pool.Footprint()
      ensures Valid() && !pool.locked
      ensures Placed(Snapshot(), old(Snapshot()), addr, old(SizeAt(Snapshot(), addr)))
    {
      hide BuddyPool.Working, HeapSound, ObjectLists, CacheLists, Marked, Placed, PageBase, PageStart, SizeAt;
      hide LiveBlocks;
      ghost var h := Snapshot();
      SlabPageOf(h, addr);
      var page := PageBase(addr);
      var p := ObjectInBlock(h, addr);
      PageFacts(addr);
      IndexFacts(h, page);
      var block := pool.Addr2Block(page);
      pool.HeadDescribed(p);
      MarkOf(pool.start, pool.slab[..], pool.pages, headers, block);
      if pool.slab[block] {
        SlabFree(addr);
      } else {
        LiveBlockAt(h, addr);
        pool.BuddyFree(addr);
        pool.ListsMatch();
        BlockReturned(h, pool.blocks, block);
      }
      PlacedMeans(Snapshot(), h, addr, SizeAt(h, addr));
    }

    /** No live object meets the descriptors of the pages, or lies behind the pool. */
    lemma ObjectsClearOfDescriptors(a: nat)
      requires Valid() && SizeAt(Snapshot(), a) > 0
      ensures pool.descriptors + 32 * pool.pages <= a
      ensures a + SizeAt(Snapshot(), a) <= pool.start + pool.pages * 4096
    {
      hide HeapSound, ObjectLists, CacheLists, Marked, SizeAt, BuddyPool.Described, BuddyPool.Linked;
      ObjectsInPool(Snapshot(), a);
    }
  }
}
