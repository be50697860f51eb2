/** The array of free lists of a buddy pool (os-l1/kernel/include/pmm.h:68-91): list k holds the free
    blocks of order k, its head being the node behind the last page descriptor. */
module FreeLists {
  import opened Bits
  import opened IntrusiveList
  import opened Sequences
  import opened Tiling

  const LISTS: nat := MAX_ORDER + 1

  /** No page is on two lists. */
  ghost predicate Separate(lists: seq<seq<nat>>) {
    forall i, j, x | 0 <= i < |lists| && 0 <= j < |lists| && i != j && x in lists[i] :: x !in lists[j]
  }

  /** The links of n descriptors and the list heads form one ring a list. */
  ghost predicate AllRings(next: seq<nat>, prev: seq<nat>, n: nat, lists: seq<seq<nat>>) {
    && |lists| == LISTS && |next| == |prev| == n + LISTS
    && Separate(lists)
    && (forall k | 0 <= k < LISTS :: Ring(next, prev, n + k, lists[k]))
    && (forall k, x | 0 <= k < LISTS && x in lists[k] :: x < n)
  }

  /** List k holds exactly the heads of the free blocks of order k. */
  ghost predicate Listed(b: Blocks, lists: seq<seq<nat>>) {
    && |lists| == LISTS
    && (forall k, p: nat | 0 <= k < LISTS :: p in lists[k] <==> p in b && b[p] == Tile(k, true))
  }

  function Pushed(lists: seq<seq<nat>>, k: nat, x: nat): seq<seq<nat>>
    requires k < |lists|
  {
    lists[k := [x] + lists[k]]
  }

  lemma PushKeepsRings(next: seq<nat>, prev: seq<nat>, n: nat, lists: seq<seq<nat>>, k: nat, x: nat)
    requires AllRings(next, prev, n, lists) && k < LISTS && x < n
    requires forall j | 0 <= j < LISTS :: x !in lists[j]
    ensures next[n + k] < |prev|
    ensures AllRings(NextAfterAdd(next, x, n + k), PrevAfterAdd(next, prev, x, n + k), n, Pushed(lists, k, x))
  {
    hide Distinct;
    RingInsert(next, prev, n + k, lists[k], 0, x);
    assert lists[k][..0] + [x] + lists[k][0..] == [x] + lists[k];
    RingEmpty(next, prev, n + k, lists[k]);
    var next', prev' := NextAfterAdd(next, x, n + k), PrevAfterAdd(next, prev, x, n + k);
    forall j | 0 <= j < LISTS && j != k
      ensures Ring(next', prev', n + j, lists[j])
    {
      assert next[n + k] == n + k || next[n + k] in lists[k];
      assert forall y | y in lists[j] :: y !in lists[k];
      RingFrame(next, prev, next', prev', n + j, lists[j]);
    }
  }

  /** Writes to the nodes of one list leave the rings of the others. */
  lemma OtherRing(next: seq<nat>, prev: seq<nat>, next': seq<nat>, prev': seq<nat>, n: nat, lists: seq<seq<nat>>,
                  k: nat, j: nat)
    requires AllRings(next, prev, n, lists) && k < LISTS && j < LISTS && j != k && |next'| == |prev'| == |next|
    requires forall x | 0 <= x < |next| && x != n + k && x !in lists[k] :: next'[x] == next[x] && prev'[x] == prev[x]
    ensures Ring(next', prev', n + j, lists[j])
  {
    assert Ring(next, prev, n + j, lists[j]);
    hide Ring;
    forall x | x in lists[j] + [n + j] && x < |next|
      ensures next'[x] == next[x] && prev'[x] == prev[x]
    {
      assert x == n + j || x in lists[j];
    }
    RingFrame(next, prev, next', prev', n + j, lists[j]);
  }

  lemma RemovedSeparate(lists: seq<seq<nat>>, n: nat, k: nat, i: nat)
    requires Separate(lists) && k < |lists| && i < |lists[k]| && Distinct(lists[k])
    requires forall j, x | 0 <= j < |lists| && x in lists[j] :: x < n
    ensures var lists' := lists[k := Without(lists[k], i)];
            Separate(lists') && forall j, x | 0 <= j < |lists'| && x in lists'[j] :: x < n
  {
    WithoutMembers(lists[k], i);
    hide Distinct, Without;
    var lists' := lists[k := Without(lists[k], i)];
    assert forall j, x | 0 <= j < |lists'| && x in lists'[j] :: x in lists[j];
  }

  lemma RemoveKeepsRings(next: seq<nat>, prev: seq<nat>, n: nat, lists: seq<seq<nat>>, k: nat, i: nat)
    requires AllRings(next, prev, n, lists) && k < LISTS && i < |lists[k]|
    ensures var x := lists[k][i];
            x < n && next[x] < |next| && prev[x] < |next| && prev[x] != x
    ensures var x := lists[k][i];
            AllRings(NextAfterDel(next, prev, x), PrevAfterDel(next, prev, x), n, lists[k := Without(lists[k], i)])
  {
    hide Distinct, Ring, Separate, Without;
    var x := lists[k][i];
    assert x in lists[k];
    Neighbours(next, prev, n + k, lists[k], i);
    RingRemove(next, prev, n + k, lists[k], i);
    var next', prev' := NextAfterDel(next, prev, x), PrevAfterDel(next, prev, x);
    RemovedSeparate(lists, n, k, i);
    var lists' := lists[k := Without(lists[k], i)];
    forall j: nat | j < LISTS
      ensures Ring(next', prev', n + j, lists'[j])
    {
      if j != k {
        OtherRing(next, prev, next', prev', n, lists, k, j);
      }
    }
  }

  lemma Neighbours(next: seq<nat>, prev: seq<nat>, head: nat, l: seq<nat>, i: nat)
    requires Ring(next, prev, head, l) && i < |l|
    ensures Distinct(l) && l[i] < |next|
    ensures next[l[i]] == head || next[l[i]] in l
    ensures prev[l[i]] == head || prev[l[i]] in l
  {
    assert At(head, l, i + 1) == l[i];
    assert next[At(head, l, i + 1)] == At(head, l, i + 2);
    assert prev[At(head, l, i + 1)] == At(head, l, i);
  }

  /** Pages are conserved: the free pages counted over the lists and the allocated pages make up the
      pool. */
  ghost function FreePages(lists: seq<seq<nat>>): nat {
    if lists == [] then 0
    else FreePages(lists[..|lists| - 1]) + |lists[|lists| - 1]| * Pow2(|lists| - 1)
  }

  // ----- Conservation -------------------------------------------------------------------------

  lemma NextHead(b: Blocks, n: nat, p: nat)
    requires Tiles(b, n) && p in b
    ensures End(b, p) == n || (End(b, p) < n && End(b, p) in b)
  {
    if End(b, p) < n {
      var t := BlockOf(b, n, End(b, p));
    }
  }

  lemma FirstHead(b: Blocks, n: nat)
    requires Tiles(b, n)
    ensures n == 0 || 0 in b
  {
    if n > 0 {
      var t := BlockOf(b, n, 0);
    }
  }

  /** The pages from p on that belong to blocks with the given mark. */
  ghost function PagesFrom(b: Blocks, n: nat, p: nat, free: bool): nat
    requires Tiles(b, n) && (p == n || p in b)
    decreases n - p
  {
    if p >= n then 0
    else
      NextHead(b, n, p);
      (if b[p].free == free then Pow2(b[p].order) else 0) + PagesFrom(b, n, End(b, p), free)
  }

  /** The allocated pages of a pool. */
  ghost function AllocatedPages(b: Blocks, n: nat): nat
    requires Tiles(b, n)
  {
    FirstHead(b, n);
    PagesFrom(b, n, 0, false)
  }

  /** The page lies in a block with the given mark. */
  ghost predicate InBlock(b: Blocks, x: nat, free: bool) {
    exists h: nat :: h in b && h <= x < h + Pow2(b[h].order) && b[h].free == free
  }

  ghost function PagesIn(b: Blocks, p: nat, n: nat, free: bool): set<nat> {
    set x: nat | p <= x < n && InBlock(b, x, free)
  }

  ghost function Range(p: nat, q: nat): (s: set<nat>)
    ensures forall x :: x in s <==> p <= x < q
    ensures p <= q ==> |s| == q - p
    decreases if p < q then q - p else 0
  {
    if p < q then {p} + Range(p + 1, q) else {}
  }

  /** The pages of a block have its mark and no other. */
  lemma BlockMarks(b: Blocks, n: nat, p: nat, x: nat, free: bool)
    requires Tiles(b, n) && p in b && p <= x < End(b, p)
    ensures InBlock(b, x, free) <==> b[p].free == free
  {
    assert forall h: nat | h in b && h <= x < h + Pow2(b[h].order) :: End(b, h) > p && End(b, p) > h;
  }

  lemma PagesSplit(b: Blocks, p: nat, e: nat, n: nat, free: bool)
    requires p <= e <= n
    ensures |PagesIn(b, p, n, free)| == |PagesIn(b, p, e, free)| + |PagesIn(b, e, n, free)|
  {
    hide InBlock;
    assert PagesIn(b, p, n, free) == PagesIn(b, p, e, free) + PagesIn(b, e, n, free);
  }

  lemma BlockPages(b: Blocks, n: nat, p: nat, free: bool)
    requires Tiles(b, n) && p in b
    ensures |PagesIn(b, p, End(b, p), free)| == if b[p].free == free then Pow2(b[p].order) else 0
  {
    forall x: nat | p <= x < End(b, p)
      ensures InBlock(b, x, free) <==> b[p].free == free
    {
      BlockMarks(b, n, p, x, free);
    }
    hide InBlock, Tiles;
    assert PagesIn(b, p, End(b, p), free) == if b[p].free == free then Range(p, End(b, p)) else {};
  }

  /** The count is the number of such pages. */
  lemma {:induction false} PagesCounted(b: Blocks, n: nat, p: nat, free: bool)
    requires Tiles(b, n) && (p == n || p in b)
    ensures PagesFrom(b, n, p, free) == |PagesIn(b, p, n, free)|
    decreases n - p
  {
    if p == n {
      assert PagesIn(b, p, n, free) == {};
    } else {
      NextHead(b, n, p);
      BlockPages(b, n, p, free);
      PagesSplit(b, p, End(b, p), n, free);
      PagesCounted(b, n, End(b, p), free);
    }
  }

  lemma {:induction false} FreeAndAllocated(b: Blocks, n: nat, p: nat)
    requires Tiles(b, n) && (p == n || p in b)
    ensures PagesFrom(b, n, p, true) + PagesFrom(b, n, p, false) == n - p
    decreases n - p
  {
    if p < n {
      NextHead(b, n, p);
      FreeAndAllocated(b, n, End(b, p));
    }
  }

  /** The free heads of order k from page p on. */
  ghost function FreeHeads(b: Blocks, k: nat, p: nat): set<nat> {
    set h | h in b && p <= h && b[h] == Tile(k, true)
  }

  ghost function WeightedHeads(b: Blocks, orders: nat, p: nat): nat {
    if orders == 0 then 0 else WeightedHeads(b, orders - 1, p) + |FreeHeads(b, orders - 1, p)| * Pow2(orders - 1)
  }

  lemma FreeHeadsStep(b: Blocks, n: nat, k: nat, p: nat)
    requires Tiles(b, n) && p in b
    ensures |FreeHeads(b, k, p)| == |FreeHeads(b, k, End(b, p))| + if b[p] == Tile(k, true) then 1 else 0
  {
    var s, t := FreeHeads(b, k, p), FreeHeads(b, k, End(b, p));
    forall h | h in s && h != p
      ensures h in t
    {
      assert End(b, p) <= h;
    }
    if b[p] == Tile(k, true) {
      assert s == t + {p};
    } else {
      assert s == t;
    }
  }

  lemma {:induction false} WeightStep(b: Blocks, n: nat, orders: nat, p: nat)
    requires Tiles(b, n) && p in b
    ensures WeightedHeads(b, orders, p)
            == WeightedHeads(b, orders, End(b, p))
               + if b[p].free && b[p].order < orders then Pow2(b[p].order) else 0
  {
    hide Tiles, FreeHeads, Pow2;
    if orders > 0 {
      var k := orders - 1;
      WeightStep(b, n, k, p);
      FreeHeadsStep(b, n, k, p);
      SumOfFactors(|FreeHeads(b, k, End(b, p))|, 1, Pow2(k));
    }
  }

  lemma {:induction false} NoHeadsAbove(b: Blocks, n: nat, orders: nat)
    requires Tiles(b, n)
    ensures WeightedHeads(b, orders, n) == 0
  {
    if orders > 0 {
      NoHeadsAbove(b, n, orders - 1);
      forall h | h in b
        ensures h < n
      {
        assert End(b, h) <= n;
      }
      assert FreeHeads(b, orders - 1, n) == {};
    }
  }

  lemma {:induction false} WeightIsPages(b: Blocks, base: nat, n: nat, p: nat)
    requires Tiles(b, n) && Aligned(b, base) && (p == n || p in b)
    ensures WeightedHeads(b, LISTS, p) == PagesFrom(b, n, p, true)
    decreases n - p
  {
    if p >= n {
      NoHeadsAbove(b, n, LISTS);
    } else {
      NextHead(b, n, p);
      WeightStep(b, n, LISTS, p);
      WeightIsPages(b, base, n, End(b, p));
    }
  }

  lemma {:induction false} DistinctLength(l: seq<nat>, s: set<nat>)
    requires Distinct(l) && forall x :: x in l <==> x in s
    ensures |l| == |s|
  {
    if l == [] {
      assert s == {};
    } else {
      var rest := l[1..];
      assert forall x :: x in rest <==> x in s - {l[0]} by {
        assert l == [l[0]] + rest;
      }
      DistinctLength(rest, s - {l[0]});
    }
  }

  lemma {:induction false} FreePagesWeighted(b: Blocks, lists: seq<seq<nat>>, orders: nat)
    requires Listed(b, lists) && orders <= LISTS && forall k | 0 <= k < LISTS :: Distinct(lists[k])
    ensures FreePages(lists[..orders]) == WeightedHeads(b, orders, 0)
  {
    if orders > 0 {
      var k := orders - 1;
      FreePagesWeighted(b, lists, k);
      assert lists[..orders][..k] == lists[..k];
      DistinctLength(lists[k], FreeHeads(b, k, 0));
    }
  }

  lemma Conservation(b: Blocks, base: nat, n: nat, lists: seq<seq<nat>>)
    requires Sound(b, base, n) && Listed(b, lists) && forall k | 0 <= k < LISTS :: Distinct(lists[k])
    ensures FreePages(lists) + AllocatedPages(b, n) == n
  {
    FirstHead(b, n);
    assert lists[..LISTS] == lists;
    FreePagesWeighted(b, lists, LISTS);
    WeightIsPages(b, base, n, 0);
    FreeAndAllocated(b, n, 0);
  }
}
