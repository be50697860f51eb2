/** Copy-on-write in os-l3/kernel/src/uproc.c: fork shares the pages of a task, a write fault moves a
    page to a frame of its own, and every task sees what it would see with pages of its own. */
module Cow {
  import opened CowSlots

  const GB: nat := 0x4000_0000

  /** The panics of `pagefault` and `unshr_pgmap`. */
  datatype Reason = InvalidAddress | TooManyPages

  datatype Outcome = Handled | Panic(reason: Reason)

  lemma Outcomes(r: Outcome)
    ensures r == Handled || r == Panic(InvalidAddress) || r == Panic(TooManyPages)
  {
    if r.Panic? {
      assert r.reason == InvalidAddress || r.reason == TooManyPages;
    }
  }

  /** `ev.ref & ~(pgsize - 1)`. */
  function PageOf(ref: nat): nat {
    ref - ref % PGSIZE
  }

  /** The page that holds an address starts at the last multiple of 4096 that is not above it. */
  lemma AlignedPage(ref: nat)
    ensures PageOf(ref) == ref / 4096 * 4096 <= ref < PageOf(ref) + 4096 && PageOf(ref) % PGSIZE == 0
    ensures ref % PGSIZE == 0 ==> PageOf(ref) == ref
  {}

  predicate InRange(s: Segment, va: nat) {
    s.start <= va < s.end
  }

  /** What `unshr_pgmap` leaves of a page: one that begins within the initial image, whose first address
      is `start`, is overwritten with the image's part of it. */
  function Imaged(image: seq<int>, start: nat, va: nat, page: Page): Page
    requires va >= start
  {
    if va <= start + |image| then
      var at := va - start;
      var len := if |image| - at > PGSIZE then PGSIZE else |image| - at;
      image[at..at + len] + page[len..]
    else page
  }

  /** The page lies behind the image or begins as the image does. */
  predicate BeginsAsImage(image: seq<int>, start: nat, va: nat, page: Page)
    requires va >= start
  {
    forall k | 0 <= k < PGSIZE && va + k < start + |image| :: page[k] == image[va + k - start]
  }

  /** The write fault keeps exactly such pages. In particular every page of the stack is kept. */
  lemma ImagedKeeps(image: seq<int>, start: nat, va: nat, page: Page)
    requires va >= start
    ensures Imaged(image, start, va, page) == page <==> BeginsAsImage(image, start, va, page)
  {
    if va <= start + |image| {
      var at := va - start;
      var len := if |image| - at > PGSIZE then PGSIZE else |image| - at;
      var after := Imaged(image, start, va, page);
      assert page == page[..len] + page[len..];
      assert forall k | 0 <= k < len :: after[k] == image[at + k];
      if forall k | 0 <= k < len :: page[k] == image[at + k] {
        assert page[..len] == image[at..at + len];
      }
    }
  }

  /** A fault puts back every byte of the page on which the image lies, and keeps the others. */
  lemma ImageComesBack(image: seq<int>, start: nat, va: nat, page: Page, k: nat)
    requires va >= start && k < 4096
    ensures Imaged(image, start, va, page)[k] == if va + k < start + |image| then image[va + k - start] else page[k]
  {
    if va <= start + |image| {
      var at := va - start;
      var len := if |image| - at > PGSIZE then PGSIZE else |image| - at;
      assert Imaged(image, start, va, page) == image[at..at + len] + page[len..];
    }
  }

  /** One page of one task's view is replaced. */
  lemma SeenMeans(views: map<nat, map<nat, Page>>, t: nat, va: nat, page: Page)
    requires t in views
    ensures var views' := SeenAs(views, t, va, page);
            && views'.Keys == views.Keys && views'[t].Keys == views[t].Keys + {va} && views'[t][va] == page
            && (forall v | v in views[t] && v != va :: views'[t][v] == views[t][v])
            && (forall u | u in views && u != t :: views'[u] == views[u])
  {}

  /** The child's pages so far are the parent's, and both can only read them. */
  ghost predicate Sharing(maps: Maps, view: map<nat, map<nat, Page>>, views: map<nat, map<nat, Page>>, parent: nat,
                          child: nat) {
    && parent in maps && child in maps && parent in views
    && view.Keys == views.Keys + {child} && (forall t | t in views && t != child :: view[t] == views[t])
    && (forall va | va in view[child] :: va in views[parent] && view[child][va] == views[parent][va])
    && (forall va | va in maps[child] :: !maps[child][va].writable && va in maps[parent] && !maps[parent][va].writable)
  }

  /** Only the tables of parent and child may differ. */
  ghost predicate OnlyTwo(maps: Maps, maps': Maps, parent: nat, child: nat) {
    maps'.Keys == maps.Keys && forall t | t in maps && t != parent && t != child :: maps'[t] == maps[t]
  }

  lemma TwoSame(maps: Maps, parent: nat, child: nat)
    ensures OnlyTwo(maps, maps, parent, child)
  {}

  lemma TwoStep(maps: Maps, maps1: Maps, parent: nat, child: nat, va: nat, pa: nat)
    requires OnlyTwo(maps, maps1, parent, child) && parent in maps && child in maps
    ensures OnlyTwo(maps, SharedMaps(maps1, parent, child, va, pa), parent, child)
  {}

  lemma SharingStep(maps: Maps, view: map<nat, map<nat, Page>>, views: map<nat, map<nat, Page>>, parent: nat,
                    child: nat, va: nat, pa: nat)
    requires Sharing(maps, view, views, parent, child) && parent != child && va in maps[parent]
    requires parent in view && va in view[parent]
    ensures child in view
    ensures Sharing(SharedMaps(maps, parent, child, va, pa), SeenAs(view, child, va, view[parent][va]), views,
              parent, child)
  {}

  lemma SharingStart(maps: Maps, views: map<nat, map<nat, Page>>, parent: nat, child: nat)
    requires parent in maps && child in maps && maps[child] == map[] && parent in views && child !in views
    ensures Sharing(maps, views[child := map[]], views, parent, child)
  {}

  /** With the same pages in both tables, the sharing is complete. */
  lemma SharingDone(maps: Maps, view: map<nat, map<nat, Page>>, views: map<nat, map<nat, Page>>, parent: nat,
                    child: nat)
    requires Sharing(maps, view, views, parent, child) && parent != child && child !in views
    requires parent in view && maps[child].Keys == maps[parent].Keys == view[child].Keys == view[parent].Keys
    ensures view == views[child := views[parent]]
    ensures forall va | va in maps[child] :: !maps[child][va].writable
    ensures forall va | va in maps[parent] :: !maps[parent][va].writable
  {
    assert view[child] == views[parent];
  }

  lemma AppendedVa(s: Segment, va: nat, pa: nat)
    ensures Appended(s, va, pa).va == s.va + [va]
  {}

  /** Equal slots map equal pages. */
  lemma SameKeys(s: seq<Segment>, m: map<nat, Mapped>, s': seq<Segment>, m': map<nat, Mapped>)
    requires TaskOk(s) && MapOk(s, m) && TaskOk(s') && MapOk(s', m') && s[0].va == s'[0].va && s[1].va == s'[1].va
    ensures m.Keys == m'.Keys
  {
    MapKeys(s, m);
    MapKeys(s', m');
  }

  lemma MapKeys(s: seq<Segment>, m: map<nat, Mapped>)
    requires TaskOk(s) && MapOk(s, m)
    ensures forall va: nat :: va in m <==> va in s[0].va || va in s[1].va
  {}

  /** A page belongs to one segment. */
  lemma OneSlot(s: seq<Segment>, m: map<nat, Mapped>, i: nat, va: nat)
    requires TaskOk(s) && MapOk(s, m) && i < |s| && InRange(s[i], va)
    ensures |s[i].va| == |s[i].pa| <= PG_NR && (va in m <==> va in s[i].va)
    ensures forall k | 0 <= k < |s| && InRange(s[k], va) :: k == i
  {
    MapKeys(s, m);
    var o := s[1 - i];
    assert SegmentOk(s[i]) && SegmentOk(o);
    forall k | 0 <= k < |o.va|
      ensures o.va[k] != va
    {
      assert o.start <= o.va[k] < o.end;
    }
  }

  lemma SegmentKept(s: Segment, j: nat, pa: nat)
    requires j < |s.pa|
    ensures Renamed(s, j, pa).start == s.start && Renamed(s, j, pa).end == s.end && Renamed(s, j, pa).va == s.va
  {}

  /** Counts only go down, frames only go from use to the free ones. */
  ghost predicate OnlyLess(counts: seq<int>, counts': seq<int>, content: map<nat, Page>, content': map<nat, Page>,
                           free: set<nat>, free': set<nat>) {
    && |counts'| == |counts| && (forall f: nat | f < |counts| :: counts'[f] <= counts[f])
    && (forall f | f in content' :: f in content && content'[f] == content[f])
    && free' + content'.Keys == free + content.Keys
  }

  lemma LessLess(counts: seq<int>, counts1: seq<int>, counts2: seq<int>, content: map<nat, Page>,
                 content1: map<nat, Page>,
                 content2: map<nat, Page>, free: set<nat>, free1: set<nat>, free2: set<nat>)
    requires OnlyLess(counts, counts1, content, content1, free, free1)
    requires OnlyLess(counts1, counts2, content1, content2, free1, free2)
    ensures OnlyLess(counts, counts2, content, content2, free, free2)
  {}

  lemma FramesInUse(segs: Segments, t: nat, i: nat, j: nat, pgcnt: seq<int>, content: map<nat, Page>, free: set<nat>)
    requires CountedLeft(segs, t, i, j, pgcnt, content, free)
    ensures forall f: nat | f < |pgcnt| && pgcnt[f] > 0 :: f in content
  {}

  /** A view changes unless its page is replaced by itself. */
  lemma SeenSame(views: map<nat, map<nat, Page>>, t: nat, va: nat, page: Page)
    requires t in views && va in views[t]
    ensures SeenAs(views, t, va, page) == views <==> page == views[t][va]
  {
    assert views[t][va := views[t][va]] == views[t];
    assert SeenAs(views, t, va, page)[t][va] == page;
  }

  /** Only the mapping of one page of one task may differ. */
  ghost predicate OthersMapped(maps: Maps, maps': Maps, t: nat, va: nat) {
    && t in maps && t in maps' && maps'.Keys == maps.Keys && (forall u | u in maps && u != t :: maps'[u] == maps[u])
    && (forall v | v != va :: v in maps'[t] <==> v in maps[t])
    && (forall v | v in maps[t] && v != va :: maps'[t][v] == maps[t][v])
  }

  lemma OthersMean(maps: Maps, maps': Maps, t: nat, va: nat)
    requires OthersMapped(maps, maps', t, va)
    ensures t in maps && t in maps' && forall u | u in maps && u != t :: u in maps' && maps'[u] == maps[u]
    ensures forall v | v in maps[t] && v != va :: v in maps'[t] && maps'[t][v] == maps[t][v]
  {}

  lemma OneRemapped(maps: Maps, t: nat, va: nat, m: Mapped)
    requires t in maps
    ensures var maps' := Remapped(maps, t, va, m);
            t in maps' && va in maps'[t] && maps'[t][va] == m && OthersMapped(maps, maps', t, va)
  {}

  lemma TakenOne(s: set<nat>, x: nat, more: set<nat>)
    requires x in s
    ensures |s| <= |s - {x} + more| + 1
  {
    assert s - {x} + more == (s - {x}) + (more - (s - {x}));
  }

  /** The move of a page conserves the frames. */
  lemma MovedKept(free: set<nat>, content: map<nat, Page>, pgcnt: seq<int>, old_: nat, pa: nat, page: Page)
    requires old_ < |pgcnt| && old_ in content && pa in free
    ensures var free', content' := MovedFree(free, pgcnt, old_, pa), MovedContent(content, pgcnt, old_, pa, page);
            free' + content'.Keys == free + content.Keys && |free| <= |free'| + 1
  {
    TakenOne(free, pa, {});
    TakenOne(free, pa, {old_});
    assert MovedContent(content, pgcnt, old_, pa, page).Keys
        == (if pgcnt[old_] == 1 then content.Keys - {old_} else content.Keys) + {pa};
  }

  class Uprocs {
    const areaStart: nat
    const areaEnd: nat
    /** `_init`, the initial program. */
    const image: seq<int>
    var segs: Segments
    var maps: Maps
    var content: map<nat, Page>
    var free: set<nat>
    const pgcnt: array<int>

    /** The two segments of every task: code, and one gigabyte of stack at the end of the user area. */
    ghost predicate RangesOk(s: seq<Segment>) {
      && |s| == 2 && s[0].start == areaStart && s[0].end == CodeEnd()
      && s[1].start == areaEnd - GB && s[1].end == areaEnd
    }

    function CodeEnd(): nat {
      areaStart + (|image| + PGSIZE - 1) / PGSIZE * PGSIZE
    }

    ghost predicate Geometry() {
      areaStart + |image| + PGSIZE + GB <= areaEnd
    }

    ghost predicate Ranged(segs: Segments) {
      forall t | t in segs :: RangesOk(segs[t])
    }

    ghost predicate Valid()
      reads this, pgcnt
    {
      Geometry() && Ranged(segs) && Sound(segs, maps, pgcnt[..], content, free)
    }

    lemma IsValid()
      requires Geometry() && Ranged(segs) && Sound(segs, maps, pgcnt[..], content, free)
      ensures Valid()
    {}

    lemma TwoEach()
      requires Valid()
      ensures GB <= areaEnd && segs.Keys == maps.Keys && forall t | t in segs :: |segs[t]| == 2
    {
      assert forall t | t in segs :: RangesOk(segs[t]);
    }

    lemma RangedWith(t: nat, i: nat, s: Segment)
      requires Ranged(segs) && t in segs && i < |segs[t]|
      requires s.start == segs[t][i].start && s.end == segs[t][i].end
      ensures Ranged(WithSegment(segs, t, i, s))
    {
      assert RangesOk(segs[t]);
    }

    /** What every task sees. */
    ghost function View(): map<nat, map<nat, Page>>
      reads this
    {
      Views(maps, content)
    }

    /** Every task sees the content of the frame that each of its pages is mapped to. */
    lemma ViewMeans()
      requires Valid()
      ensures View().Keys == maps.Keys
      ensures forall t | t in maps :: View()[t].Keys == maps[t].Keys
      ensures forall t, va | t in maps && va in maps[t] ::
                maps[t][va].frame in content && View()[t][va] == content[maps[t][va].frame]
    {
      hide Sound;
      MappedFrames(segs, maps, pgcnt[..], content, free);
    }

    constructor (areaStart: nat, areaEnd: nat, image: seq<int>, frames: nat, free: set<nat>)
      requires areaStart + |image| + PGSIZE + GB <= areaEnd && forall f | f in free :: f < frames
      ensures Valid() && fresh(pgcnt) && View() == map[] && segs == map[]
      ensures this.areaStart == areaStart && this.areaEnd == areaEnd && this.image == image
      ensures this.free == free && pgcnt.Length == frames
    {
      this.areaStart, this.areaEnd, this.image := areaStart, areaEnd, image;
      segs, maps, content := map[], map[], map[];
      this.free := free;
      pgcnt := new int[frames](i => 0);
    }

    /** The segments of a new task in `uproc_create`. */
    method Create(t: nat)
      requires Valid() && t !in segs
      modifies this`segs, this`maps
      ensures Valid() && View() == old(View())[t := map[]]
      ensures t in segs && segs == old(segs)[t := segs[t]] && |segs[t]| == 2 && segs[t][0].va == []
      ensures segs[t][1].va == []
      ensures segs[t][0].start == areaStart && (segs[t][0].end - areaStart) % 4096 == 0
      ensures areaStart + |image| <= segs[t][0].end < areaStart + |image| + 4096
      ensures segs[t][1].start + 0x4000_0000 == areaEnd == segs[t][1].end
      ensures maps == old(maps)[t := map[]]
    {
      hide Valid, Sound, Views, Ranged;
      TwoEach();
      var code, stack := Segment(areaStart, CodeEnd(), [], []), Segment(areaEnd - GB, areaEnd, [], []);
      ToCreate(t, code, stack);
      segs := segs[t := [code, stack]];
      maps := maps[t := map[]];
      IsValid();
    }

    lemma ToCreate(t: nat, code: Segment, stack: Segment)
      requires Valid() && t !in segs && code.va == code.pa == [] && stack.va == stack.pa == []
      requires code.start == areaStart && code.end == CodeEnd() && stack.start + GB == areaEnd && stack.end == areaEnd
      ensures var segs', maps' := segs[t := [code, stack]], maps[t := map[]];
              && Geometry() && Ranged(segs') && Sound(segs', maps', pgcnt[..], content, free)
              && Views(maps', content) == View()[t := map[]]
    {
      hide Sound, Views;
      TaskCreated(segs, maps, pgcnt[..], content, free, t, code, stack);
    }

    /** A store by a task, which the processor allows on a writable page only. */
    method Store(t: nat, va: nat, k: nat, value: int)
      requires Valid() && t in maps && va in maps[t] && maps[t][va].writable && k < PGSIZE
      modifies this`content
      ensures Valid() && t in old(View()) && va in old(View())[t]
      ensures View() == SeenAs(old(View()), t, va, old(View())[t][va][k := value])
    {
      hide Namers, TaskOk, MapOk;
      var f := maps[t][va].frame;
      MappedFrames(segs, maps, pgcnt[..], content, free);
      var page: Page := content[f][k := value];
      StoredViews(segs, maps, pgcnt[..], content, free, t, va, page);
      content := content[f := page];
    }

    /** `map` twice, to PROT_NONE and to PROT_READ: the page becomes read-only. */
    method Reprotect(t: nat, va: nat, pa: nat)
      requires t in maps && va in maps[t]
      modifies this`maps
      ensures maps == Remapped(old(maps), t, va, Mapped(pa, false))
    {
      var table: map<nat, Mapped> := maps[t] - {va};
      assert table[va := Mapped(pa, false)] == maps[t][va := Mapped(pa, false)];
      maps := maps[t := table];
      maps := Remapped(maps, t, va, Mapped(pa, false));
    }

    /** One round of the loops of `fork`: page j of segment i goes to the child as well. */
    method ShareSlot(parent: nat, child: nat, i: nat, j: nat)
      requires Valid() && parent in segs && child in segs && parent != child && i < 2
      requires j < |segs[parent][i].va| && segs[parent][i].va[j] !in maps[child] && |segs[child][i].va| < PG_NR
      modifies this`segs, this`maps, pgcnt
      ensures Valid() && j < |old(segs)[parent][i].pa|
      ensures var s := old(segs)[parent][i];
              && segs == WithSegment(old(segs), child, i, Appended(old(segs)[child][i], s.va[j], s.pa[j]))
              && maps == SharedMaps(old(maps), parent, child, s.va[j], s.pa[j])
              && s.va[j] in old(View())[parent]
              && View() == SeenAs(old(View()), child, s.va[j], old(View())[parent][s.va[j]])
    {
      hide Sound, Namers, TaskOk, MapOk;
      SlotInfo(parent, i, j);
      var va, pa := segs[parent][i].va[j], segs[parent][i].pa[j];
      PageShared(segs, maps, pgcnt[..], content, free, parent, child, i, j);
      SharedViews(segs, maps, pgcnt[..], content, free, parent, child, va);
      Reprotect(parent, va, pa);
      maps := Remapped(maps, child, va, Mapped(pa, false));
      segs := WithSegment(segs, child, i, Appended(segs[child][i], va, pa));
      pgcnt[pa] := pgcnt[pa] + 1;
    }

    lemma SlotInfo(t: nat, i: nat, j: nat)
      requires Valid() && t in segs && i < |segs[t]| && j < |segs[t][i].va|
      ensures segs.Keys == maps.Keys && t in View() && j < |segs[t][i].pa|
      ensures var va := segs[t][i].va[j];
              va in maps[t] && maps[t][va].frame == segs[t][i].pa[j] && maps[t][va].frame in content && va in View()[t]
                && View()[t][va] == content[segs[t][i].pa[j]]
      ensures segs[t][i].pa[j] < pgcnt.Length
    {
      assert TaskOk(segs[t]) && MapOk(segs[t], maps[t]);
      SlotMapping(segs[t], maps[t], i, j);
      MappedFrames(segs, maps, pgcnt[..], content, free);
    }

    lemma NotShared(parent: nat, child: nat, i: nat, j: nat)
      requires Valid() && parent in segs && child in segs && i < 2 && |segs[child]| == |segs[parent]| == 2
      requires j < |segs[parent][i].va| && segs[child][i].va == segs[parent][i].va[..j]
      ensures child in maps && segs[parent][i].va[j] !in maps[child] && |segs[child][i].va| < PG_NR
    {
      assert TaskOk(segs[parent]) && TaskOk(segs[child]) && MapOk(segs[child], maps[child]);
      var va := segs[parent][i].va[j];
      var o := segs[child][1 - i];
      assert SegmentOk(segs[parent][i]) && SegmentOk(o);
      forall k | 0 <= k < |o.va|
        ensures o.va[k] != va
      {
        assert o.start <= o.va[k] < o.end;
      }
    }

    /** The inner loop of `fork`. */
    method ShareSegment(parent: nat, child: nat, i: nat, ghost views: map<nat, map<nat, Page>>)
      requires Valid() && parent in segs && child in segs && parent != child && i < 2
      requires segs[child][i].va == [] && Sharing(maps, View(), views, parent, child)
      modifies this`segs, this`maps, pgcnt
      ensures Valid() && Sharing(maps, View(), views, parent, child) && segs.Keys == old(segs).Keys
      ensures forall t | t in segs && t != child :: segs[t] == old(segs)[t]
      ensures OnlyTwo(old(maps), maps, parent, child)
      ensures |segs[child]| == 2 && segs[child][i].va == old(segs)[parent][i].va
      ensures segs[child][1 - i] == old(segs)[child][1 - i]
    {
      hide Valid, Sound, Namers, View, Sharing, SharedMaps, Appended, OnlyTwo;
      TwoEach();
      TwoSame(maps, parent, child);
      var s := segs[parent][i];
      var j := 0;
      while j < |s.va|
        invariant j <= |s.va| && Valid() && Sharing(maps, View(), views, parent, child) && segs.Keys == old(segs).Keys
        invariant forall t | t in segs && t != child :: segs[t] == old(segs)[t]
        invariant OnlyTwo(old(maps), maps, parent, child)
        invariant |segs[child]| == 2 && segs[child][i].va == s.va[..j] && segs[child][1 - i] == old(segs)[child][1 - i]
      {
        TwoEach();
        SlotInfo(parent, i, j);
        NotShared(parent, child, i, j);
        SharingStep(maps, View(), views, parent, child, s.va[j], s.pa[j]);
        TwoStep(old(maps), maps, parent, child, s.va[j], s.pa[j]);
        AppendedVa(segs[child][i], s.va[j], s.pa[j]);
        ShareSlot(parent, child, i, j);
        j := j + 1;
      }
    }

    /** `fork`: the child sees exactly the parent's pages, every other task sees what it saw, and parent
        and child can write none of the pages any more. */
    method Fork(parent: nat, child: nat)
      requires Valid() && parent in segs && child !in segs
      modifies this`segs, this`maps, pgcnt
      ensures Valid() && parent in old(View()) && View() == old(View())[child := old(View())[parent]]
      ensures child in maps && parent in maps
      ensures forall va | va in maps[child] :: !maps[child][va].writable
      ensures forall va | va in maps[parent] :: !maps[parent][va].writable
      ensures forall t | t in old(maps) && t != parent && t != child :: t in maps && maps[t] == old(maps)[t]
    {
      hide Valid, Sound, Namers, View, Sharing;
      ViewKeys();
      TwoEach();
      ghost var views := View();
      Create(child);
      SharingStart(maps, views, parent, child);
      ghost var maps0 := maps;
      var i := 0;
      while i < 2
        invariant i <= 2 && Valid() && parent in segs && child in segs && Sharing(maps, View(), views, parent, child)
        invariant forall t | t in segs && t != child :: t in old(segs) && segs[t] == old(segs)[t]
        invariant OnlyTwo(maps0, maps, parent, child)
        invariant |segs[child]| == |segs[parent]| == 2
        invariant forall k | 0 <= k < 2 :: segs[child][k].va == if k < i then segs[parent][k].va else []
      {
        ShareSegment(parent, child, i, views);
        i := i + 1;
      }
      AllShared(parent, child);
      SharingDone(maps, View(), views, parent, child);
    }

    lemma ViewKeys()
      requires Valid()
      ensures segs.Keys == maps.Keys == View().Keys && forall t | t in maps :: View()[t].Keys == maps[t].Keys
    {
      MappedFrames(segs, maps, pgcnt[..], content, free);
    }

    lemma AllShared(parent: nat, child: nat)
      requires Valid() && parent in segs && child in segs && |segs[child]| == |segs[parent]| == 2
      requires segs[child][0].va == segs[parent][0].va && segs[child][1].va == segs[parent][1].va
      ensures parent in maps && child in maps && parent in View() && child in View()
      ensures maps[child].Keys == maps[parent].Keys == View()[child].Keys == View()[parent].Keys
    {
      ViewKeys();
      assert TaskOk(segs[parent]) && TaskOk(segs[child]) && MapOk(segs[parent], maps[parent])
          && MapOk(segs[child], maps[child]);
      SameKeys(segs[parent], maps[parent], segs[child], maps[child]);
    }

    /** The search of `pagefault` for the segment of a page. */
    method FindSegment(t: nat, va: nat) returns (i: nat)
      requires t in segs
      ensures i <= |segs[t]| && (i < |segs[t]| ==> InRange(segs[t][i], va))
      ensures forall k | 0 <= k < i :: !InRange(segs[t][k], va)
    {
      i := 0;
      while i < |segs[t]| && !InRange(segs[t][i], va)
        invariant i <= |segs[t]|
        invariant forall k | 0 <= k < i :: !InRange(segs[t][k], va)
      {
        i := i + 1;
      }
    }

    /** The search for the slot of a page in its segment. */
    method FindSlot(t: nat, i: nat, va: nat) returns (j: nat)
      requires t in segs && i < |segs[t]|
      ensures j <= |segs[t][i].va| && (j < |segs[t][i].va| ==> segs[t][i].va[j] == va)
      ensures j == |segs[t][i].va| <==> va !in segs[t][i].va
    {
      j := 0;
      while j < |segs[t][i].va| && segs[t][i].va[j] != va
        invariant j <= |segs[t][i].va| && forall k | 0 <= k < j :: segs[t][i].va[k] != va
      {
        j := j + 1;
      }
    }

    /** `dec_pgcnt`: a frame is freed when its count comes down to zero. */
    method DecPgcnt(pa: nat)
      requires pa < pgcnt.Length && pgcnt[pa] >= 1
      modifies this`content, this`free, pgcnt
      ensures pgcnt[..] == old(pgcnt[..])[pa := old(pgcnt[pa]) - 1]
      ensures content == if old(pgcnt[pa]) == 1 then old(content) - {pa} else old(content)
      ensures free == old(free) + if old(pgcnt[pa]) == 1 then {pa} else {}
    {
      pgcnt[pa] := pgcnt[pa] - 1;
      if pgcnt[pa] == 0 {
        content := content - {pa};
        free := free + {pa};
      }
    }

    /** Where the slot of a page is, and whether the page is mapped. */
    lemma SlotAt(t: nat, i: nat, va: nat)
      requires Valid() && t in segs && i < |segs[t]| && InRange(segs[t][i], va)
      ensures t in maps && |segs[t][i].va| == |segs[t][i].pa| <= PG_NR && va >= areaStart && i < 2
      ensures va in maps[t] <==> va in segs[t][i].va
      ensures forall k | 0 <= k < |segs[t]| && InRange(segs[t][k], va) :: k == i
    {
      hide TaskOk, MapOk, Counted, WritersAlone;
      assert TaskOk(segs[t]) && MapOk(segs[t], maps[t]);
      OneSlot(segs[t], maps[t], i, va);
      assert RangesOk(segs[t]);
    }

    /** The fault on a page that is not there yet. */
    method AddPage(t: nat, i: nat, va: nat) returns (ghost page: Page)
      requires Valid() && t in segs && i < |segs[t]| && InRange(segs[t][i], va) && va % PGSIZE == 0
      requires free != {} && va !in segs[t][i].va && |segs[t][i].va| < PG_NR
      modifies this`segs, this`maps, this`content, this`free, pgcnt
      ensures va >= areaStart && t in old(View()) && va !in old(View())[t]
      ensures View() == SeenAs(old(View()), t, va, Imaged(image, areaStart, va, page))
      ensures Valid() && t in maps && va in maps[t] && !maps[t][va].writable
      ensures OthersMapped(old(maps), maps, t, va)
      ensures free + content.Keys == old(free) + old(content).Keys && |old(free)| <= |free| + 1
    {
      hide Valid, Sound, Namers, TaskOk, MapOk, Views, Ranged, Imaged, Appended, Remapped, OthersMapped;
      SlotAt(t, i, va);
      ViewKeys();
      var pa: nat :| pa in free;
      var raw: Page := *;
      page := raw;
      var after := Imaged(image, areaStart, va, raw);
      ToAdd(t, i, va, pa, after);
      TakenOne(free, pa, {});
      OneRemapped(maps, t, va, Mapped(pa, false));
      Hang(t, i, va, pa, after);
      IsValid();
    }

    /** The writes of the addition. */
    method Hang(t: nat, i: nat, va: nat, pa: nat, after: Page)
      requires t in segs && i < |segs[t]| && t in maps && pa < pgcnt.Length && pgcnt[pa] == 0 && pa in free
      modifies this`segs, this`maps, this`content, this`free, pgcnt
      ensures segs == WithSegment(old(segs), t, i, Appended(old(segs)[t][i], va, pa))
      ensures maps == Remapped(old(maps), t, va, Mapped(pa, false)) && content == old(content)[pa := after]
      ensures pgcnt[..] == old(pgcnt[..])[pa := 1] && free == old(free) - {pa}
    {
      free := free - {pa};
      segs := WithSegment(segs, t, i, Appended(segs[t][i], va, pa));
      maps := Remapped(maps, t, va, Mapped(pa, false));
      pgcnt[pa] := pgcnt[pa] + 1;
      content := content[pa := after];
    }

    lemma ToAdd(t: nat, i: nat, va: nat, pa: nat, page: Page)
      requires Valid() && t in segs && i < |segs[t]| && InRange(segs[t][i], va) && va % PGSIZE == 0
      requires pa in free && t in maps && va !in maps[t] && |segs[t][i].va| < PG_NR
      ensures t in View() && pa < pgcnt.Length && pgcnt[pa] == 0
      ensures var segs' := WithSegment(segs, t, i, Appended(segs[t][i], va, pa));
              var maps', content' := Remapped(maps, t, va, Mapped(pa, false)), content[pa := page];
              && Geometry() && Ranged(segs') && Sound(segs', maps', pgcnt[..][pa := 1], content', free - {pa})
              && Views(maps', content') == SeenAs(View(), t, va, page)
    {
      hide Sound, Namers, TaskOk, MapOk, Appended, Ranged;
      PageAdded(segs, maps, pgcnt[..], content, free, t, i, va, pa, page);
      PageAddedViews(segs, maps, pgcnt[..], content, free, t, va, pa, page);
      AppendedRange(segs[t][i], va, pa);
      RangedWith(t, i, Appended(segs[t][i], va, pa));
    }

    /** The fault on a page that may not be written: it moves to a new frame, mapped writable. */
    method MovePage(t: nat, i: nat, j: nat)
      requires Valid() && t in segs && i < |segs[t]| && j < |segs[t][i].va| && free != {}
      modifies this`segs, this`maps, this`content, this`free, pgcnt
      ensures t in old(View()) && old(segs)[t][i].va[j] in old(View())[t] && old(segs)[t][i].va[j] >= areaStart
      ensures var va := old(segs)[t][i].va[j];
              && View() == SeenAs(old(View()), t, va, Imaged(image, areaStart, va, old(View())[t][va]))
              && t in maps && va in maps[t] && maps[t][va].writable && OthersMapped(old(maps), maps, t, va)
      ensures Valid() && free + content.Keys == old(free) + old(content).Keys && |old(free)| <= |free| + 1
    {
      hide Valid, Sound, Namers, TaskOk, MapOk, Views, Ranged, Imaged, Renamed, MovedCount, MovedContent, MovedFree;
      hide Remapped, OthersMapped;
      ViewKeys();
      SlotInfo(t, i, j);
      SlotInRange(t, i, j);
      var va, pa := segs[t][i].va[j], segs[t][i].pa[j];
      var nwpa: nat :| nwpa in free;
      var after := Imaged(image, areaStart, va, content[pa]);
      ToMove(t, i, j, nwpa, after);
      MovedKept(free, content, pgcnt[..], pa, nwpa, after);
      OneRemapped(maps, t, va, Mapped(nwpa, true));
      Rehang(t, i, j, nwpa, after);
      IsValid();
    }

    lemma ToMove(t: nat, i: nat, j: nat, nwpa: nat, page: Page)
      requires Valid() && t in segs && i < |segs[t]| && j < |segs[t][i].va| && j < |segs[t][i].pa| && nwpa in free
      ensures var va, pa := segs[t][i].va[j], segs[t][i].pa[j];
              && t in maps && va in maps[t] && t in View() && pa in content
              && pa < pgcnt.Length && nwpa < pgcnt.Length && pa != nwpa && pgcnt[pa] >= 1 && pgcnt[nwpa] == 0
              && var segs' := WithSegment(segs, t, i, Renamed(segs[t][i], j, nwpa));
                 var maps' := Remapped(maps, t, va, Mapped(nwpa, true));
                 var content' := MovedContent(content, pgcnt[..], pa, nwpa, page);
                 && Geometry() && Ranged(segs')
                 && Sound(segs', maps', MovedCount(pgcnt[..], pa, nwpa), content', MovedFree(free, pgcnt[..], pa, nwpa))
                 && Views(maps', content') == SeenAs(View(), t, va, page)
    {
      hide Sound, Namers, TaskOk, MapOk, Renamed, Ranged, MovedCount, MovedContent, MovedFree;
      var va := segs[t][i].va[j];
      SlotInfo(t, i, j);
      PageMoved(segs, maps, pgcnt[..], content, free, t, i, j, nwpa, page);
      MovedViews(segs, maps, pgcnt[..], content, free, t, va, nwpa, page);
      SegmentKept(segs[t][i], j, nwpa);
      RangedWith(t, i, Renamed(segs[t][i], j, nwpa));
    }

    /** The writes of the move. */
    method Rehang(t: nat, i: nat, j: nat, nwpa: nat, after: Page)
      requires t in segs && i < |segs[t]| && j < |segs[t][i].va| && j < |segs[t][i].pa| && t in maps
      requires nwpa < pgcnt.Length && segs[t][i].pa[j] < pgcnt.Length && segs[t][i].pa[j] in content
      requires pgcnt[nwpa] == 0 && segs[t][i].pa[j] != nwpa && pgcnt[segs[t][i].pa[j]] >= 1 && nwpa in free
      modifies this`segs, this`maps, this`content, this`free, pgcnt
      ensures var va, pa := old(segs)[t][i].va[j], old(segs)[t][i].pa[j];
              && segs == WithSegment(old(segs), t, i, Renamed(old(segs)[t][i], j, nwpa))
              && maps == Remapped(old(maps), t, va, Mapped(nwpa, true))
              && pgcnt[..] == MovedCount(old(pgcnt[..]), pa, nwpa)
              && content == MovedContent(old(content), old(pgcnt[..]), pa, nwpa, after)
              && free == MovedFree(old(free), old(pgcnt[..]), pa, nwpa)
    {
      var va, pa := segs[t][i].va[j], segs[t][i].pa[j];
      free := free - {nwpa};
      DecPgcnt(pa);
      segs := WithSegment(segs, t, i, Renamed(segs[t][i], j, nwpa));
      maps := Remapped(maps, t, va, Mapped(nwpa, true));
      pgcnt[nwpa] := pgcnt[nwpa] + 1;
      content := content[nwpa := after];
    }

    lemma SlotInRange(t: nat, i: nat, j: nat)
      requires Valid() && t in segs && i < |segs[t]| && j < |segs[t][i].va|
      ensures InRange(segs[t][i], segs[t][i].va[j]) && segs[t][i].va[j] >= areaStart
    {
      assert TaskOk(segs[t]) && MapOk(segs[t], maps[t]);
      SlotMapping(segs[t], maps[t], i, j);
    }

    /** What a write fault does to the view of its task. */
    lemma FaultKeeps(t: nat, va: nat)
      requires Valid() && t in View() && va in View()[t] && va >= areaStart
      ensures SeenAs(View(), t, va, Imaged(image, areaStart, va, View()[t][va])) == View() <==>
              BeginsAsImage(image, areaStart, va, View()[t][va])
      ensures va >= areaEnd - GB ==> BeginsAsImage(image, areaStart, va, View()[t][va])
    {
      hide Imaged, SeenAs;
      ImagedKeeps(image, areaStart, va, View()[t][va]);
      SeenSame(View(), t, va, Imaged(image, areaStart, va, View()[t][va]));
    }

    /** The part of `pagefault` behind the search for the segment. */
    method Serve(t: nat, i: nat, va: nat) returns (r: Outcome, ghost page: Page)
      requires Valid() && t in segs && i < |segs[t]| && InRange(segs[t][i], va) && va % PGSIZE == 0 && free != {}
      modifies this`segs, this`maps, this`content, this`free, pgcnt
      ensures Valid() && t in old(View()) && va >= areaStart && r != Panic(InvalidAddress)
      ensures r == Panic(TooManyPages) <==> va !in old(View())[t] && |old(segs)[t][i].va| >= PG_NR
      ensures r != Handled ==> View() == old(View()) && maps == old(maps)
      ensures r == Handled ==>
                && t in maps && va in maps[t] && (maps[t][va].writable <==> va in old(View())[t])
                && (va in old(View())[t] ==> page == old(View())[t][va])
                && OthersMapped(old(maps), maps, t, va)
                && View() == SeenAs(old(View()), t, va, Imaged(image, areaStart, va, page))
      ensures r == Handled && va in old(View())[t] ==>
                && (View() == old(View()) <==> BeginsAsImage(image, areaStart, va, old(View())[t][va]))
                && (va >= areaEnd - GB ==> View() == old(View()))
      ensures free + content.Keys == old(free) + old(content).Keys && |old(free)| <= |free| + 1
    {
      hide Valid, View, Sound, Namers, Views, SeenAs, Imaged, BeginsAsImage, InRange, OthersMapped;
      ViewKeys();
      SlotAt(t, i, va);
      page := *;
      r := Handled;
      var j := FindSlot(t, i, va);
      if j < |segs[t][i].va| {
        page := View()[t][va];
        FaultKeeps(t, va);
        MovePage(t, i, j);
      } else if |segs[t][i].va| < PG_NR {
        page := AddPage(t, i, va);
      } else {
        r := Panic(TooManyPages);
      }
    }

    /** Where the two segments of a task are. */
    lemma SegmentsLie(t: nat)
      requires Valid() && t in segs
      ensures |segs[t]| == 2
      ensures forall va: nat ::
                InRange(segs[t][0], va) <==> areaStart <= va < areaStart + (|image| + 4095) / 4096 * 4096
      ensures forall va: nat :: InRange(segs[t][1], va) <==> areaEnd - 0x4000_0000 <= va < areaEnd
    {
      assert RangesOk(segs[t]);
    }

    /** `pagefault`, for the private segments: the page that holds the address is added for reading when it is
        absent, and moves to a frame of its own for writing when it is there. The two panics come exactly outside
        the segments and on the 33rd page of a segment. Where the initial image lies, the page begins with the
        image afterwards; its other bytes, the other pages of the task and the other tasks are as before. The views
        stay on a write fault if and only if the page lies behind the image or still begins as the image does; pages
        of the stack do. */
    method PageFault(t: nat, ref: nat) returns (r: Outcome, ghost page: Page)
      requires Valid() && t in segs && free != {}
      modifies this`segs, this`maps, this`content, this`free, pgcnt
      ensures Valid() && t in old(View()) && |old(segs)[t]| == 2
      ensures var va := ref / 4096 * 4096;
              && va <= ref < va + 4096
              && (r == Panic(InvalidAddress) <==>
                    && !(areaStart <= va < areaStart + (|image| + 4095) / 4096 * 4096)
                    && !(areaEnd - 0x4000_0000 <= va < areaEnd))
              && (r == Panic(TooManyPages) <==>
                    && va !in old(View())[t]
                    && (|| (areaStart <= va < areaStart + (|image| + 4095) / 4096 * 4096
                            && |old(segs)[t][0].va| >= 32)
                        || (areaEnd - 0x4000_0000 <= va < areaEnd && |old(segs)[t][1].va| >= 32)))
      ensures r != Handled ==> View() == old(View()) && maps == old(maps)
      ensures r == Handled ==>
                var va := ref / 4096 * 4096;
                && va >= areaStart && t in maps && va in maps[t]
                && (maps[t][va].writable <==> va in old(View())[t])
                && (va in old(View())[t] ==> page == old(View())[t][va])
                && View() == SeenAs(old(View()), t, va, Imaged(image, areaStart, va, page))
                && t in old(maps) && (forall u | u in old(maps) && u != t :: u in maps && maps[u] == old(maps)[u])
                && (forall v | v in old(maps)[t] && v != va :: v in maps[t] && maps[t][v] == old(maps)[t][v])
      ensures r == Handled ==>
                var va := ref / 4096 * 4096;
                && t in View() && va in View()[t]
                && (forall k: nat | k < 4096 ::
                      View()[t][va][k] ==
                      if va + k < areaStart + |image| then image[va + k - areaStart] else page[k])
                && View()[t].Keys == old(View())[t].Keys + {va}
                && (forall v | v in old(View())[t] && v != va :: View()[t][v] == old(View())[t][v])
                && View().Keys == old(View()).Keys
                && (forall u | u in View() && u != t :: View()[u] == old(View())[u])
      ensures r == Handled ==>
                var va := ref / 4096 * 4096;
                va in old(View())[t] ==>
                  && (View() == old(View()) <==> BeginsAsImage(image, areaStart, va, old(View())[t][va]))
                  && (va >= areaEnd - 0x4000_0000 ==> View() == old(View()))
      ensures free + content.Keys == old(free) + old(content).Keys && |old(free)| <= |free| + 1
    {
      hide Valid, View, Sound, Namers, Views, SeenAs, Imaged, BeginsAsImage, InRange, PageOf, OthersMapped;
      var va := PageOf(ref);
      AlignedPage(ref);
      SegmentsLie(t);
      ViewKeys();
      var i := FindSegment(t, va);
      if i == |segs[t]| {
        assert !InRange(segs[t][0], va) && !InRange(segs[t][1], va);
        r, page := Panic(InvalidAddress), *;
      } else {
        SlotAt(t, i, va);
        r, page := Serve(t, i, va);
        if r == Handled {
          FaultBytes(old(View()), t, va, page);
          OthersMean(old(maps), maps, t, va);
        }
      }
    }

    lemma FaultBytes(views: map<nat, map<nat, Page>>, t: nat, va: nat, page: Page)
      requires t in views && va >= areaStart && View() == SeenAs(views, t, va, Imaged(image, areaStart, va, page))
      ensures t in View() && va in View()[t] && View()[t].Keys == views[t].Keys + {va} && View().Keys == views.Keys
      ensures forall k: nat | k < 4096 ::
                View()[t][va][k] == if va + k < areaStart + |image| then image[va + k - areaStart] else page[k]
      ensures forall v | v in views[t] && v != va :: View()[t][v] == views[t][v]
      ensures forall u | u in View() && u != t :: View()[u] == views[u]
    {
      hide View, Imaged, SeenAs;
      SeenMeans(views, t, va, Imaged(image, areaStart, va, page));
      forall k: nat | k < 4096 {
        ImageComesBack(image, areaStart, va, page, k);
      }
    }

    /** The first page of the user area belongs to the code of every task. */
    lemma FirstPage(t: nat)
      requires Valid() && t in segs && |image| > 0
      ensures |segs[t]| == 2 && InRange(segs[t][0], areaStart) && !InRange(segs[t][1], areaStart)
      ensures segs.Keys == maps.Keys == View().Keys
    {
      ViewKeys();
      assert RangesOk(segs[t]);
    }

    /** A fault there on a page that is present or the first one of its task. */
    method FaultFirst(t: nat) returns (ghost page: Page)
      requires Valid() && t in segs && free != {} && |image| > 0 && areaStart % PGSIZE == 0
      requires t in View() && (areaStart in View()[t] || forall i | 0 <= i < |segs[t]| :: segs[t][i].va == [])
      modifies this`segs, this`maps, this`content, this`free, pgcnt
      ensures Valid() && segs.Keys == old(segs).Keys && |old(free)| <= |free| + 1
      ensures t in maps && areaStart in maps[t] && (maps[t][areaStart].writable <==> areaStart in old(View())[t])
      ensures areaStart in old(View())[t] ==> page == old(View())[t][areaStart]
      ensures View() == SeenAs(old(View()), t, areaStart, Imaged(image, areaStart, areaStart, page))
    {
      hide Valid, View, Sound, Views, Imaged, BeginsAsImage, PageOf, InRange;
      AlignedPage(areaStart);
      FirstPage(t);
      SegmentsLie(t);
      ghost var s := segs[t];
      assert areaStart / 4096 * 4096 == areaStart;
      assert areaStart !in View()[t] ==> forall i | 0 <= i < |s| :: |s[i].va| < PG_NR;
      var r;
      r, page := PageFault(t, areaStart);
      assert r != Panic(InvalidAddress) && r != Panic(TooManyPages);
      Outcomes(r);
      ViewKeys();
    }

    /** A new task writes to its first page. */
    method WriteImage(t: nat, k: nat, value: int)
      requires Valid() && t !in segs && |free| >= 2 && areaStart % PGSIZE == 0 && k < |image| && k < PGSIZE
      modifies this`segs, this`maps, this`content, this`free, pgcnt
      ensures Valid() && segs.Keys == old(segs).Keys + {t} && |old(free)| <= |free| + 2
      ensures t in View() && areaStart in View()[t] && View()[t][areaStart][k] == value
    {
      hide Valid, View, Sound, Views, Imaged;
      Create(t);
      ghost var page := FaultFirst(t);
      page := FaultFirst(t);
      Store(t, areaStart, k, value);
    }

    /** Stores that a write fault undoes: a task writes over its initial image, forks, and writes to that page
        again. The child keeps what was stored. */
    method LoseStore(t: nat, child: nat, k: nat, value: int)
      returns (ghost before: map<nat, map<nat, Page>>)
      requires Valid() && t !in segs && child !in segs && t != child && |free| >= 3 && areaStart % PGSIZE == 0
      requires k < |image| && k < PGSIZE
      modifies this`segs, this`maps, this`content, this`free, pgcnt
      ensures Valid() && t in before && areaStart in before[t] && before[t][areaStart][k] == value
      ensures t in View() && areaStart in View()[t] && View()[t][areaStart][k] == image[k]
      ensures child in View() && View()[child] == before[t]
    {
      hide Valid, View, Sound, Views, Imaged;
      WriteImage(t, k, value);
      Fork(t, child);
      ViewKeys();
      before := View();
      ghost var page;
      page := FaultFirst(t);
      ImageComesBack(image, areaStart, areaStart, page, k);
    }

    /** The inner loop of `kmt_teardown`: one `dec_pgcnt` for every page of a segment. */
    method DropSegment(t: nat, i: nat)
      requires t in segs && i < |segs[t]| && CountedLeft(segs, t, i, 0, pgcnt[..], content, free)
      modifies this`content, this`free, pgcnt
      ensures CountedLeft(segs, t, i + 1, 0, pgcnt[..], content, free)
      ensures OnlyLess(old(pgcnt[..]), pgcnt[..], old(content), content, old(free), free)
    {
      hide CountedLeft;
      var j := 0;
      while j < |segs[t][i].pa|
        invariant j <= |segs[t][i].pa| && CountedLeft(segs, t, i, j, pgcnt[..], content, free)
        invariant OnlyLess(old(pgcnt[..]), pgcnt[..], old(content), content, old(free), free)
      {
        LeftDropped(segs, t, i, j, pgcnt[..], content, free);
        FramesInUse(segs, t, i, j, pgcnt[..], content, free);
        DecPgcnt(segs[t][i].pa[j]);
        j := j + 1;
      }
      LeftNext(segs, t, i, pgcnt[..], content, free);
    }

    /** The part of `kmt_teardown` that gives up a task's private pages. */
    method Teardown(t: nat)
      requires Valid() && t in segs
      modifies this`segs, this`maps, this`content, this`free, pgcnt
      ensures Valid() && segs == old(segs) - {t} && View() == old(View()) - {t}
      ensures free + content.Keys == old(free) + old(content).Keys
    {
      hide Sound, Namers, TaskOk, MapOk, Views, CountedLeft, OnlyLess;
      ghost var counts, content0, free0 := pgcnt[..], content, free;
      StartTeardown(t);
      var i := 0;
      while i < |segs[t]|
        invariant segs == old(segs) && maps == old(maps)
        invariant i <= |segs[t]| && CountedLeft(segs, t, i, 0, pgcnt[..], content, free)
        invariant OnlyLess(counts, pgcnt[..], content0, content, free0, free)
      {
        ghost var counts1, content1, free1 := pgcnt[..], content, free;
        DropSegment(t, i);
        LessLess(counts, counts1, pgcnt[..], content0, content1, content, free0, free1, free);
        i := i + 1;
      }
      FinishTeardown(t, counts, content0, free0);
      segs := segs - {t};
      maps := maps - {t};
    }

    lemma FinishTeardown(t: nat, counts: seq<int>, content0: map<nat, Page>, free0: set<nat>)
      requires t in segs && Sound(segs, maps, counts, content0, free0)
      requires CountedLeft(segs, t, |segs[t]|, 0, pgcnt[..], content, free)
      requires OnlyLess(counts, pgcnt[..], content0, content, free0, free)
      ensures Sound(segs - {t}, maps - {t}, pgcnt[..], content, free)
      ensures Views(maps - {t}, content) == Views(maps, content0) - {t}
      ensures free + content.Keys == free0 + content0.Keys
    {
      hide Sound, Namers, TaskOk, MapOk, Views, CountedLeft;
      LeftNone(segs, t, pgcnt[..], content, free);
      TaskGone(segs, maps, counts, content0, free0, t, pgcnt[..], content, free);
    }

    lemma StartTeardown(t: nat)
      requires Valid()
      ensures CountedLeft(segs, t, 0, 0, pgcnt[..], content, free)
      ensures OnlyLess(pgcnt[..], pgcnt[..], content, content, free, free)
    {
      LeftStart(segs, t, pgcnt[..], content, free);
    }
  }
}
