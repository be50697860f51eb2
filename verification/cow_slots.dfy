/** The private pages of processes in os-l3/kernel/src/uproc.c as data: the segments' slots, the page
    tables, the frames, and how many slots name a frame. */
module CowSlots {
  const PGSIZE: nat := 4096
  const PG_NR: nat := 32

  /** `adrspc_t`: an address range and the pages in it, `va` and `pa` in parallel. */
  datatype Segment = Segment(start: nat, end: nat, va: seq<nat>, pa: seq<nat>)

  /** The segments of every task. */
  type Segments = map<nat, seq<Segment>>

  /** A page as mapped by `map`: frames are named by their index in `pgcnt`. */
  datatype Mapped = Mapped(frame: nat, writable: bool)

  /** The page tables of every task. */
  type Maps = map<nat, map<nat, Mapped>>

  type Page = p: seq<int> | |p| == PGSIZE witness seq(PGSIZE, i => 0)

  /** A slot: the task, the number of its segment and the index in it. */
  type Slot = (nat, nat, nat)

  predicate IsSlot(segs: Segments, s: Slot) {
    s.0 in segs && s.1 < |segs[s.0]| && s.2 < |segs[s.0][s.1].pa|
  }

  predicate Names(segs: Segments, f: nat, s: Slot) {
    IsSlot(segs, s) && segs[s.0][s.1].pa[s.2] == f
  }

  /** The slots that name a frame. */
  ghost function Namers(segs: Segments, f: nat): set<Slot> {
    set t, i: nat, j: nat | t in segs && i < |segs[t]| && j < |segs[t][i].pa| && segs[t][i].pa[j] == f :: (t, i, j)
  }

  lemma NamersAre(segs: Segments, f: nat)
    ensures forall s :: s in Namers(segs, f) <==> Names(segs, f, s)
  {
    forall s
      ensures s in Namers(segs, f) <==> Names(segs, f, s)
    {
      var (t, i, j) := s;
    }
  }

  ghost predicate SegmentOk(s: Segment) {
    && |s.va| == |s.pa| <= PG_NR
    && (forall j, k | 0 <= j < k < |s.va| :: s.va[j] != s.va[k])
    && (forall j | 0 <= j < |s.va| :: s.start <= s.va[j] < s.end && s.va[j] % PGSIZE == 0)
  }

  /** A task's segments, code and stack, lie apart. */
  ghost predicate TaskOk(segs: seq<Segment>) {
    |segs| == 2 && SegmentOk(segs[0]) && SegmentOk(segs[1]) && segs[0].end <= segs[1].start
  }

  ghost predicate SegmentMapped(s: Segment, m: map<nat, Mapped>)
    requires |s.va| == |s.pa|
  {
    forall j | 0 <= j < |s.va| :: s.va[j] in m && m[s.va[j]].frame == s.pa[j]
  }

  /** A task's page table maps exactly the pages of its slots, to their frames. */
  ghost predicate MapOk(segs: seq<Segment>, m: map<nat, Mapped>)
    requires TaskOk(segs)
  {
    && SegmentMapped(segs[0], m) && SegmentMapped(segs[1], m)
    && (forall va | va in m :: va in segs[0].va || va in segs[1].va)
  }

  /** The reference counts, and the frames they keep. */
  ghost predicate Counted(segs: Segments, pgcnt: seq<int>, content: map<nat, Page>, free: set<nat>) {
    && (forall f: nat | f < |pgcnt| :: pgcnt[f] == |Namers(segs, f)|)
    && (forall f: nat :: f in content <==> f < |pgcnt| && pgcnt[f] > 0)
    && (forall f: nat | f in free :: f < |pgcnt| && f !in content)
    && (forall s: Slot | IsSlot(segs, s) :: segs[s.0][s.1].pa[s.2] < |pgcnt|)
  }

  /** A frame that some task may write is named by one slot only. */
  ghost predicate WritersAlone(maps: Maps, pgcnt: seq<int>) {
    forall t, va | t in maps && va in maps[t] && maps[t][va].writable ::
        maps[t][va].frame < |pgcnt| && pgcnt[maps[t][va].frame] == 1
  }

  ghost predicate Sound(segs: Segments, maps: Maps, pgcnt: seq<int>, content: map<nat, Page>, free: set<nat>) {
    && segs.Keys == maps.Keys
    && (forall t | t in segs :: TaskOk(segs[t]) && MapOk(segs[t], maps[t]))
    && Counted(segs, pgcnt, content, free)
    && WritersAlone(maps, pgcnt)
  }

  /** What a task sees: the bytes of each of its pages. */
  ghost function View(m: map<nat, Mapped>, content: map<nat, Page>): map<nat, Page> {
    map va | va in m && m[va].frame in content :: content[m[va].frame]
  }

  ghost function Views(maps: Maps, content: map<nat, Page>): map<nat, map<nat, Page>> {
    map t | t in maps :: View(maps[t], content)
  }

  /** One page of one task's view replaced. */
  function SeenAs(views: map<nat, map<nat, Page>>, t: nat, va: nat, page: Page): map<nat, map<nat, Page>>
    requires t in views
  {
    var view: map<nat, Page> := views[t][va := page];
    views[t := view]
  }

  // ----- Slots written -------------------------------------------------------------------------

  function Appended(s: Segment, va: nat, pa: nat): Segment {
    s.(va := s.va + [va], pa := s.pa + [pa])
  }

  function WithSegment(segs: Segments, t: nat, i: nat, s: Segment): Segments
    requires t in segs && i < |segs[t]|
  {
    segs[t := segs[t][i := s]]
  }

  function Remapped(maps: Maps, t: nat, va: nat, m: Mapped): Maps
    requires t in maps
  {
    var table: map<nat, Mapped> := maps[t][va := m];
    maps[t := table]
  }

  lemma NamersAppended(segs: Segments, t: nat, i: nat, va: nat, pa: nat, f: nat)
    requires t in segs && i < |segs[t]|
    ensures Namers(WithSegment(segs, t, i, Appended(segs[t][i], va, pa)), f)
            == Namers(segs, f) + if f == pa then {(t, i, |segs[t][i].pa|)} else {}
    ensures (t, i, |segs[t][i].pa|) !in Namers(segs, f)
  {
    var segs' := WithSegment(segs, t, i, Appended(segs[t][i], va, pa));
    var added: set<Slot> := if f == pa then {(t, i, |segs[t][i].pa|)} else {};
    NamersAre(segs, f);
    NamersAre(segs', f);
    forall s
      ensures Names(segs', f, s) <==> Names(segs, f, s) || s in added
    {}
  }

  lemma NamersReplaced(segs: Segments, t: nat, i: nat, j: nat, pa: nat, f: nat)
    requires t in segs && i < |segs[t]| && j < |segs[t][i].pa|
    ensures Namers(WithSegment(segs, t, i, segs[t][i].(pa := segs[t][i].pa[j := pa])), f)
            == Namers(segs, f) - {(t, i, j)} + if f == pa then {(t, i, j)} else {}
    ensures (t, i, j) in Namers(segs, f) <==> segs[t][i].pa[j] == f
  {
    var segs' := WithSegment(segs, t, i, segs[t][i].(pa := segs[t][i].pa[j := pa]));
    var added: set<Slot> := if f == pa then {(t, i, j)} else {};
    NamersAre(segs, f);
    NamersAre(segs', f);
    forall s
      ensures Names(segs', f, s) <==> (Names(segs, f, s) && s != (t, i, j)) || s in added
    {}
  }

  lemma SegmentAppended(s: Segment, m: map<nat, Mapped>, va: nat, pa: nat, writable: bool)
    requires SegmentOk(s) && SegmentMapped(s, m) && va !in m
    requires s.start <= va < s.end && va % PGSIZE == 0 && |s.va| < PG_NR
    ensures SegmentOk(Appended(s, va, pa)) && SegmentMapped(Appended(s, va, pa), m[va := Mapped(pa, writable)])
    ensures forall x :: x in Appended(s, va, pa).va <==> x in s.va || x == va
  {
    assert forall j | 0 <= j < |s.va| :: s.va[j] in m;
    assert Appended(s, va, pa).va[|s.va|] == va;
    assert forall x | x in s.va :: x in Appended(s, va, pa).va;
  }

  /** A slot appended to a segment whose range holds its page. */
  lemma AppendedOk(segs: Segments, m: map<nat, Mapped>, t: nat, i: nat, va: nat, pa: nat, writable: bool)
    requires t in segs && TaskOk(segs[t]) && MapOk(segs[t], m) && i < 2 && va !in m
    requires segs[t][i].start <= va < segs[t][i].end && va % PGSIZE == 0 && |segs[t][i].va| < PG_NR
    ensures var segs' := WithSegment(segs, t, i, Appended(segs[t][i], va, pa))[t];
            TaskOk(segs') && MapOk(segs', m[va := Mapped(pa, writable)])
  {
    hide Appended;
    SegmentAppended(segs[t][i], m, va, pa, writable);
    AppendedRange(segs[t][i], va, pa);
  }

  lemma AppendedRange(s: Segment, va: nat, pa: nat)
    ensures Appended(s, va, pa).start == s.start && Appended(s, va, pa).end == s.end
  {}

  /** The slot behind a mapping. */
  lemma SlotOf(segs: Segments, maps: Maps, pgcnt: seq<int>, content: map<nat, Page>, free: set<nat>, t: nat, va: nat)
    returns (i: nat, j: nat)
    requires Sound(segs, maps, pgcnt, content, free) && t in segs && va in maps[t]
    ensures i < 2 && i < |segs[t]| && j < |segs[t][i].pa| && j < |segs[t][i].va| && segs[t][i].va[j] == va
    ensures segs[t][i].pa[j] == maps[t][va].frame
    ensures maps[t][va].frame < |pgcnt| && maps[t][va].frame in content && pgcnt[maps[t][va].frame] >= 1
  {
    hide Namers;
    assert TaskOk(segs[t]) && MapOk(segs[t], maps[t]);
    i := if va in segs[t][0].va then 0 else 1;
    j :| 0 <= j < |segs[t][i].va| && segs[t][i].va[j] == va;
    NamedCounted(segs, pgcnt, content, free, (t, i, j));
  }

  lemma NamedCounted(segs: Segments, pgcnt: seq<int>, content: map<nat, Page>, free: set<nat>, s: Slot)
    requires Counted(segs, pgcnt, content, free) && IsSlot(segs, s)
    ensures var f := segs[s.0][s.1].pa[s.2]; f < |pgcnt| && f in content && pgcnt[f] >= 1
  {
    var f := segs[s.0][s.1].pa[s.2];
    NamersAre(segs, f);
    assert Names(segs, f, s);
    assert Namers(segs, f) >= {s};
  }

  /** Every mapped frame is in use. */
  lemma MappedFrames(segs: Segments, maps: Maps, pgcnt: seq<int>, content: map<nat, Page>, free: set<nat>)
    requires Sound(segs, maps, pgcnt, content, free)
    ensures forall t, va | t in maps && va in maps[t] ::
              maps[t][va].frame < |pgcnt| && maps[t][va].frame in content && pgcnt[maps[t][va].frame] >= 1
  {
    forall t, va | t in maps && va in maps[t]
      ensures maps[t][va].frame < |pgcnt| && maps[t][va].frame in content && pgcnt[maps[t][va].frame] >= 1
    {
      var i, j := SlotOf(segs, maps, pgcnt, content, free, t, va);
    }
  }

  lemma CountedAppended(segs: Segments, t: nat, i: nat, va: nat, pa: nat,
                        pgcnt: seq<int>, content: map<nat, Page>, content': map<nat, Page>, free: set<nat>,
                        free': set<nat>)
    requires Counted(segs, pgcnt, content, free) && t in segs && i < |segs[t]| && pa < |pgcnt|
    requires content'.Keys == content.Keys + {pa} && free' == free - {pa}
    ensures Counted(WithSegment(segs, t, i, Appended(segs[t][i], va, pa)), pgcnt[pa := pgcnt[pa] + 1], content', free')
  {
    hide Namers, Appended;
    var segs', pgcnt' := WithSegment(segs, t, i, Appended(segs[t][i], va, pa)), pgcnt[pa := pgcnt[pa] + 1];
    forall f: nat | f < |pgcnt'|
      ensures pgcnt'[f] == |Namers(segs', f)|
    {
      NamersGrown(segs, t, i, va, pa, f);
    }
    assert pgcnt[pa] == |Namers(segs, pa)|;
    AppendedSlots(segs, t, i, va, pa, |pgcnt|);
  }

  lemma NamersGrown(segs: Segments, t: nat, i: nat, va: nat, pa: nat, f: nat)
    requires t in segs && i < |segs[t]|
    ensures |Namers(WithSegment(segs, t, i, Appended(segs[t][i], va, pa)), f)|
            == |Namers(segs, f)| + if f == pa then 1 else 0
  {
    hide Namers;
    NamersAppended(segs, t, i, va, pa, f);
  }

  lemma AppendedSlots(segs: Segments, t: nat, i: nat, va: nat, pa: nat, frames: nat)
    requires t in segs && i < |segs[t]| && pa < frames
    requires forall s: Slot | IsSlot(segs, s) :: segs[s.0][s.1].pa[s.2] < frames
    ensures var segs' := WithSegment(segs, t, i, Appended(segs[t][i], va, pa));
            forall s: Slot | IsSlot(segs', s) :: segs'[s.0][s.1].pa[s.2] < frames
  {
    var segs' := WithSegment(segs, t, i, Appended(segs[t][i], va, pa));
    forall s: Slot | IsSlot(segs', s)
      ensures segs'[s.0][s.1].pa[s.2] < frames
    {
      assert IsSlot(segs, s) || s == (t, i, |segs[t][i].pa|);
    }
  }

  /** The fault on an absent page: a new frame, named by the new slot alone. */
  lemma PageAdded(segs: Segments, maps: Maps, pgcnt: seq<int>, content: map<nat, Page>, free: set<nat>,
                  t: nat, i: nat, va: nat, pa: nat, page: Page)
    requires Sound(segs, maps, pgcnt, content, free) && t in segs && i < |segs[t]| && va !in maps[t] && pa in free
    requires segs[t][i].start <= va < segs[t][i].end && va % PGSIZE == 0 && |segs[t][i].va| < PG_NR
    ensures pa < |pgcnt| && pgcnt[pa] == 0 && pa !in content
    ensures Sound(WithSegment(segs, t, i, Appended(segs[t][i], va, pa)), Remapped(maps, t, va, Mapped(pa, false)),
                  pgcnt[pa := 1], content[pa := page], free - {pa})
  {
    hide Namers, TaskOk, MapOk, Counted, Appended;
    assert TaskOk(segs[t]) && MapOk(segs[t], maps[t]);
    TwoSegments(segs[t]);
    FreeFrame(segs, pgcnt, content, free, pa);
    AppendedOk(segs, maps[t], t, i, va, pa, false);
    CountedAppended(segs, t, i, va, pa, pgcnt, content, content[pa := page], free, free - {pa});
    MappedFrames(segs, maps, pgcnt, content, free);
  }

  lemma PageAddedViews(segs: Segments, maps: Maps, pgcnt: seq<int>, content: map<nat, Page>, free: set<nat>,
                       t: nat, va: nat, pa: nat, page: Page)
    requires Sound(segs, maps, pgcnt, content, free) && t in segs && va !in maps[t] && pa in free
    ensures Views(Remapped(maps, t, va, Mapped(pa, false)), content[pa := page])
            == SeenAs(Views(maps, content), t, va, page)
  {
    hide Namers, Views, View, TaskOk, MapOk;
    FreeFrame(segs, pgcnt, content, free, pa);
    MappedFrames(segs, maps, pgcnt, content, free);
    ViewsAfter(maps, content, Remapped(maps, t, va, Mapped(pa, false)), content[pa := page], t, va, page, pa);
  }

  lemma TwoSegments(segs: seq<Segment>)
    requires TaskOk(segs)
    ensures |segs| == 2
  {}

  lemma FreeFrame(segs: Segments, pgcnt: seq<int>, content: map<nat, Page>, free: set<nat>, pa: nat)
    requires Counted(segs, pgcnt, content, free) && pa in free
    ensures pa < |pgcnt| && pgcnt[pa] == 0 && pa !in content
  {
    assert pa < |pgcnt| && pa !in content && pgcnt[pa] == |Namers(segs, pa)|;
  }

  /** One page of one task rewritten, every other frame as before: one view changes. */
  lemma ViewsAfter(maps: Maps, content: map<nat, Page>, maps': Maps, content': map<nat, Page>, t: nat, va: nat,
                   page: Page, pa: nat)
    requires t in maps && maps'.Keys == maps.Keys && pa in content' && content'[pa] == page
    requires va in maps'[t] && maps'[t][va].frame == pa && maps'[t].Keys == maps[t].Keys + {va}
    requires forall x: nat, v: nat | x in maps && v in maps[x] && (x, v) != (t, va) ::
               && x in maps' && v in maps'[x]
               && maps'[x][v].frame == maps[x][v].frame
               && (maps[x][v].frame in content <==> maps[x][v].frame in content')
               && (maps[x][v].frame in content ==> content'[maps[x][v].frame] == content[maps[x][v].frame])
    requires forall x | x in maps && x != t :: maps'[x].Keys == maps[x].Keys
    ensures Views(maps', content') == SeenAs(Views(maps, content), t, va, page)
  {
    hide View;
    var views', views := Views(maps', content'), SeenAs(Views(maps, content), t, va, page);
    forall x: nat | x in maps && x != t
      ensures View(maps'[x], content') == View(maps[x], content)
    {
      SameView(maps[x], content, maps'[x], content');
    }
    OneViewAfter(maps[t], content, maps'[t], content', va, page);
    assert views'.Keys == views.Keys;
    assert forall x | x in maps :: views'[x] == views[x];
  }

  lemma SameView(m: map<nat, Mapped>, content: map<nat, Page>, m': map<nat, Mapped>, content': map<nat, Page>)
    requires m'.Keys == m.Keys
    requires forall v: nat | v in m ::
               && m'[v].frame == m[v].frame
               && (m[v].frame in content <==> m[v].frame in content')
               && (m[v].frame in content ==> content'[m[v].frame] == content[m[v].frame])
    ensures View(m', content') == View(m, content)
  {
    assert View(m', content').Keys == View(m, content).Keys;
  }

  lemma OneViewAfter(m: map<nat, Mapped>, content: map<nat, Page>, m': map<nat, Mapped>, content': map<nat, Page>,
                     va: nat, page: Page)
    requires m'.Keys == m.Keys + {va} && m'[va].frame in content' && content'[m'[va].frame] == page
    requires forall v: nat | v in m && v != va ::
               && m'[v].frame == m[v].frame
               && (m[v].frame in content <==> m[v].frame in content')
               && (m[v].frame in content ==> content'[m[v].frame] == content[m[v].frame])
    ensures View(m', content') == View(m, content)[va := page]
  {
    var view', view := View(m', content'), View(m, content)[va := page];
    assert view'.Keys == view.Keys;
  }

  // ----- Fork ----------------------------------------------------------------------------------

  /** A page shared with the child: both map it read-only. */
  ghost function SharedMaps(maps: Maps, parent: nat, child: nat, va: nat, pa: nat): Maps
    requires parent in maps && child in maps
  {
    Remapped(Remapped(maps, parent, va, Mapped(pa, false)), child, va, Mapped(pa, false))
  }

  lemma PageShared(segs: Segments, maps: Maps, pgcnt: seq<int>, content: map<nat, Page>, free: set<nat>,
                   parent: nat, child: nat, i: nat, j: nat)
    requires Sound(segs, maps, pgcnt, content, free) && parent in segs && child in segs && parent != child
    requires i < |segs[parent]| && i < |segs[child]| && j < |segs[parent][i].va| && j < |segs[parent][i].pa|
    requires segs[parent][i].va[j] !in maps[child] && |segs[child][i].va| < PG_NR
    requires segs[child][i].start == segs[parent][i].start && segs[child][i].end == segs[parent][i].end
    ensures var va, pa := segs[parent][i].va[j], segs[parent][i].pa[j];
            && va in maps[parent] && maps[parent][va].frame == pa && pa in content && pa < |pgcnt|
            && Sound(WithSegment(segs, child, i, Appended(segs[child][i], va, pa)),
                 SharedMaps(maps, parent, child, va, pa),
                     pgcnt[pa := pgcnt[pa] + 1], content, free)
  {
    hide Namers, Appended, OthersElsewhere, WritersAlone, TaskOk, MapOk;
    var va, pa := segs[parent][i].va[j], segs[parent][i].pa[j];
    assert TaskOk(segs[parent]) && MapOk(segs[parent], maps[parent]);
    assert TaskOk(segs[child]) && MapOk(segs[child], maps[child]);
    SlotMapping(segs[parent], maps[parent], i, j);
    TwoSegments(segs[child]);
    NamedCounted(segs, pgcnt, content, free, (parent, i, j));
    AppendedOk(segs, maps[child], child, i, va, pa, false);
    Reprotected(segs[parent], maps[parent], va, pa);
    CountedAppended(segs, child, i, va, pa, pgcnt, content, content, free, free);
    WriterElsewhere(segs, maps, pgcnt, content, free, parent, va);
    SharedWriters(segs, maps, pgcnt, parent, child, va, pa);
  }

  /** A writable page shares its frame with no other page of any task. */
  lemma SoleWriter(segs: Segments, maps: Maps, pgcnt: seq<int>, content: map<nat, Page>, free: set<nat>,
                   t: nat, va: nat, x: nat, v: nat)
    requires Sound(segs, maps, pgcnt, content, free) && t in maps && va in maps[t] && x in maps && v in maps[x]
    requires maps[x][v].writable && maps[x][v].frame == maps[t][va].frame
    ensures (x, v) == (t, va)
  {
    hide Namers, TaskOk, MapOk;
    var f := maps[t][va].frame;
    var i, j := SlotOf(segs, maps, pgcnt, content, free, t, va);
    var k, l := SlotOf(segs, maps, pgcnt, content, free, x, v);
    NamersAre(segs, f);
    assert Names(segs, f, (t, i, j)) && Names(segs, f, (x, k, l));
    SingleMember(Namers(segs, f), (t, i, j), (x, k, l));
  }

  lemma SingleMember<T>(s: set<T>, a: T, b: T)
    requires |s| == 1 && a in s && b in s
    ensures a == b
  {
    assert |s - {a}| == 0;
    assert b !in s - {a};
  }

  lemma WriterElsewhere(segs: Segments, maps: Maps, pgcnt: seq<int>, content: map<nat, Page>, free: set<nat>, t: nat,
                        va: nat)
    requires Sound(segs, maps, pgcnt, content, free) && t in maps && va in maps[t]
    ensures OthersElsewhere(maps, t, va, maps[t][va].frame)
  {
    forall x, v | x in maps && v in maps[x] && maps[x][v].writable && maps[x][v].frame == maps[t][va].frame
      ensures (x, v) == (t, va)
    {
      SoleWriter(segs, maps, pgcnt, content, free, t, va, x, v);
    }
  }

  lemma SlotMapping(segs: seq<Segment>, m: map<nat, Mapped>, i: nat, j: nat)
    requires TaskOk(segs) && MapOk(segs, m) && i < |segs| && j < |segs[i].va|
    ensures |segs| == 2 && j < |segs[i].pa| && segs[i].va[j] in m && m[segs[i].va[j]].frame == segs[i].pa[j]
    ensures segs[i].start <= segs[i].va[j] < segs[i].end && segs[i].va[j] % PGSIZE == 0
  {}

  /** Mapping a page again to the same frame keeps the table and the slots in step. */
  lemma Reprotected(segs: seq<Segment>, m: map<nat, Mapped>, va: nat, pa: nat)
    requires TaskOk(segs) && MapOk(segs, m) && va in m && m[va].frame == pa
    ensures MapOk(segs, m[va := Mapped(pa, false)])
  {}

  lemma SharedWriters(segs: Segments, maps: Maps, pgcnt: seq<int>, parent: nat, child: nat, va: nat, pa: nat)
    requires WritersAlone(maps, pgcnt) && parent in maps && child in maps && parent != child
    requires va in maps[parent] && maps[parent][va].frame == pa < |pgcnt|
    requires OthersElsewhere(maps, parent, va, pa)
    ensures WritersAlone(SharedMaps(maps, parent, child, va, pa), pgcnt[pa := pgcnt[pa] + 1])
  {}

  /** No other page than the given one is writable and mapped to the frame. */
  ghost predicate OthersElsewhere(maps: Maps, t: nat, va: nat, pa: nat) {
    forall x, v | x in maps && v in maps[x] && maps[x][v].writable && (x, v) != (t, va) :: maps[x][v].frame != pa
  }

  lemma SharedViews(segs: Segments, maps: Maps, pgcnt: seq<int>, content: map<nat, Page>, free: set<nat>,
                    parent: nat, child: nat, va: nat)
    requires Sound(segs, maps, pgcnt, content, free) && parent in maps && child in maps && parent != child
    requires va in maps[parent] && va !in maps[child]
    ensures var pa := maps[parent][va].frame;
            && pa in content
            && Views(SharedMaps(maps, parent, child, va, pa), content)
               == SeenAs(Views(maps, content), child, va, content[pa])
  {
    hide Sound, Views, View;
    var pa := maps[parent][va].frame;
    MappedFrames(segs, maps, pgcnt, content, free);
    ViewsAfter(maps, content, SharedMaps(maps, parent, child, va, pa), content, child, va, content[pa], pa);
  }

  // ----- Copy on write -------------------------------------------------------------------------

  function Renamed(s: Segment, j: nat, pa: nat): Segment
    requires j < |s.pa|
  {
    s.(pa := s.pa[j := pa])
  }

  /** The counts after `dec_pgcnt` of the old frame and `inc_pgcnt` of the new one. */
  function MovedCount(pgcnt: seq<int>, old_: nat, pa: nat): seq<int>
    requires old_ < |pgcnt| && pa < |pgcnt|
  {
    pgcnt[old_ := pgcnt[old_] - 1][pa := 1]
  }

  /** The frames in use, with the new one, and without the old one when its last slot is gone. */
  ghost function MovedContent(content: map<nat, Page>, pgcnt: seq<int>, old_: nat, pa: nat, page: Page): map<nat, Page>
    requires old_ < |pgcnt|
  {
    (if pgcnt[old_] == 1 then content - {old_} else content)[pa := page]
  }

  ghost function MovedFree(free: set<nat>, pgcnt: seq<int>, old_: nat, pa: nat): set<nat>
    requires old_ < |pgcnt|
  {
    free - {pa} + if pgcnt[old_] == 1 then {old_} else {}
  }

  lemma CountedMoved(segs: Segments, t: nat, i: nat, j: nat, pa: nat, pgcnt: seq<int>, content: map<nat, Page>,
                     free: set<nat>, page: Page)
    requires Counted(segs, pgcnt, content, free) && t in segs && i < |segs[t]| && j < |segs[t][i].pa| && pa in free
    ensures var old_ := segs[t][i].pa[j];
            && old_ < |pgcnt| && pa < |pgcnt| && pa != old_ && pgcnt[old_] >= 1
            && Counted(WithSegment(segs, t, i, Renamed(segs[t][i], j, pa)), MovedCount(pgcnt, old_, pa),
                       MovedContent(content, pgcnt, old_, pa, page), MovedFree(free, pgcnt, old_, pa))
  {
    hide Namers, Renamed;
    var old_ := segs[t][i].pa[j];
    NamedCounted(segs, pgcnt, content, free, (t, i, j));
    FreeFrame(segs, pgcnt, content, free, pa);
    RenamedSlots(segs, t, i, j, pa, |pgcnt|);
    var segs', pgcnt' := WithSegment(segs, t, i, Renamed(segs[t][i], j, pa)), MovedCount(pgcnt, old_, pa);
    forall f: nat | f < |pgcnt'|
      ensures pgcnt'[f] == |Namers(segs', f)|
    {
      NamersMoved(segs, t, i, j, pa, f);
      assert pgcnt[f] == |Namers(segs, f)|;
    }
  }

  lemma NamersMoved(segs: Segments, t: nat, i: nat, j: nat, pa: nat, f: nat)
    requires t in segs && i < |segs[t]| && j < |segs[t][i].pa| && pa != segs[t][i].pa[j]
    ensures |Namers(WithSegment(segs, t, i, Renamed(segs[t][i], j, pa)), f)|
            == |Namers(segs, f)| + (if f == pa then 1 else 0) - if f == segs[t][i].pa[j] then 1 else 0
  {
    hide Namers;
    NamersReplaced(segs, t, i, j, pa, f);
  }

  lemma RenamedSlots(segs: Segments, t: nat, i: nat, j: nat, pa: nat, frames: nat)
    requires t in segs && i < |segs[t]| && j < |segs[t][i].pa| && pa < frames
    requires forall s: Slot | IsSlot(segs, s) :: segs[s.0][s.1].pa[s.2] < frames
    ensures var segs' := WithSegment(segs, t, i, Renamed(segs[t][i], j, pa));
            forall s: Slot | IsSlot(segs', s) :: segs'[s.0][s.1].pa[s.2] < frames
  {
    var segs' := WithSegment(segs, t, i, Renamed(segs[t][i], j, pa));
    forall s: Slot | IsSlot(segs', s)
      ensures segs'[s.0][s.1].pa[s.2] < frames
    {
      assert IsSlot(segs, s);
    }
  }

  lemma SegmentRenamed(s: Segment, m: map<nat, Mapped>, j: nat, pa: nat)
    requires SegmentOk(s) && SegmentMapped(s, m) && j < |s.va|
    ensures SegmentOk(Renamed(s, j, pa)) && SegmentMapped(Renamed(s, j, pa), m[s.va[j] := Mapped(pa, true)])
    ensures Renamed(s, j, pa).va == s.va && Renamed(s, j, pa).start == s.start && Renamed(s, j, pa).end == s.end
  {}

  lemma SegmentApart(s: Segment, o: Segment, m: map<nat, Mapped>, j: nat, to: Mapped)
    requires SegmentOk(s) && SegmentOk(o) && SegmentMapped(o, m) && j < |s.va| && (s.end <= o.start || o.end <= s.start)
    ensures SegmentMapped(o, m[s.va[j] := to])
  {
    assert s.start <= s.va[j] < s.end;
  }

  lemma RenamedOk(segs: Segments, m: map<nat, Mapped>, t: nat, i: nat, j: nat, pa: nat)
    requires t in segs && TaskOk(segs[t]) && MapOk(segs[t], m) && i < 2 && j < |segs[t][i].va|
    ensures j < |segs[t][i].pa|
    ensures var segs' := WithSegment(segs, t, i, Renamed(segs[t][i], j, pa))[t];
            TaskOk(segs') && MapOk(segs', m[segs[t][i].va[j] := Mapped(pa, true)])
  {
    assert SegmentOk(segs[t][i]) && SegmentOk(segs[t][1 - i]);
    hide SegmentOk, SegmentMapped, Renamed;
    SegmentRenamed(segs[t][i], m, j, pa);
    SegmentApart(segs[t][i], segs[t][1 - i], m, j, Mapped(pa, true));
    assert segs[t][i].va[j] in segs[t][i].va;
  }

  /** The write fault: the page moves to a frame of its own. */
  lemma PageMoved(segs: Segments, maps: Maps, pgcnt: seq<int>, content: map<nat, Page>, free: set<nat>,
                  t: nat, i: nat, j: nat, pa: nat, page: Page)
    requires Sound(segs, maps, pgcnt, content, free) && t in segs && pa in free
    requires i < |segs[t]| && j < |segs[t][i].pa| && j < |segs[t][i].va|
    ensures var old_ := segs[t][i].pa[j];
            && old_ < |pgcnt| && pa < |pgcnt| && pa != old_ && pgcnt[old_] >= 1 && pgcnt[pa] == 0
            && segs[t][i].va[j] in maps[t] && maps[t][segs[t][i].va[j]].frame == old_
            && Sound(WithSegment(segs, t, i, Renamed(segs[t][i], j, pa)),
                     Remapped(maps, t, segs[t][i].va[j], Mapped(pa, true)), MovedCount(pgcnt, old_, pa),
                     MovedContent(content, pgcnt, old_, pa, page), MovedFree(free, pgcnt, old_, pa))
  {
    hide Namers, Renamed, Counted;
    assert TaskOk(segs[t]) && MapOk(segs[t], maps[t]);
    assert Counted(segs, pgcnt, content, free);
    FreeFrame(segs, pgcnt, content, free, pa);
    CountedMoved(segs, t, i, j, pa, pgcnt, content, free, page);
    RenamedOk(segs, maps[t], t, i, j, pa);
    WriterElsewhere(segs, maps, pgcnt, content, free, t, segs[t][i].va[j]);
    MovedWriters(segs, maps, pgcnt, content, free, t, segs[t][i].va[j], pa);
  }

  lemma MovedWriters(segs: Segments, maps: Maps, pgcnt: seq<int>, content: map<nat, Page>, free: set<nat>, t: nat,
                     va: nat, pa: nat)
    requires Sound(segs, maps, pgcnt, content, free) && t in maps && va in maps[t] && pa in free
    requires OthersElsewhere(maps, t, va, maps[t][va].frame) && maps[t][va].frame < |pgcnt| && pa < |pgcnt|
    ensures WritersAlone(Remapped(maps, t, va, Mapped(pa, true)), MovedCount(pgcnt, maps[t][va].frame, pa))
  {
    hide Namers, TaskOk, MapOk;
    MappedFrames(segs, maps, pgcnt, content, free);
    FreeFrame(segs, pgcnt, content, free, pa);
  }

  lemma MovedViews(segs: Segments, maps: Maps, pgcnt: seq<int>, content: map<nat, Page>, free: set<nat>,
                   t: nat, va: nat, pa: nat, page: Page)
    requires Sound(segs, maps, pgcnt, content, free) && t in maps && va in maps[t] && pa in free
    ensures var old_ := maps[t][va].frame;
            && old_ < |pgcnt|
            && Views(Remapped(maps, t, va, Mapped(pa, true)), MovedContent(content, pgcnt, old_, pa, page))
               == SeenAs(Views(maps, content), t, va, page)
  {
    hide Namers, TaskOk, MapOk, Views, View;
    var old_ := maps[t][va].frame;
    MappedFrames(segs, maps, pgcnt, content, free);
    FreeFrame(segs, pgcnt, content, free, pa);
    forall x: nat, v: nat | x in maps && v in maps[x] && (x, v) != (t, va) && pgcnt[old_] == 1
      ensures maps[x][v].frame != old_
    {
      LastSlot(segs, maps, pgcnt, content, free, t, va, x, v);
    }
    ViewsAfter(maps, content, Remapped(maps, t, va, Mapped(pa, true)), MovedContent(content, pgcnt, old_, pa, page),
        t, va, page, pa);
  }

  /** A frame counted once is mapped by one page only. */
  lemma LastSlot(segs: Segments, maps: Maps, pgcnt: seq<int>, content: map<nat, Page>, free: set<nat>,
                 t: nat, va: nat, x: nat, v: nat)
    requires Sound(segs, maps, pgcnt, content, free) && t in maps && va in maps[t] && x in maps && v in maps[x]
    requires maps[t][va].frame < |pgcnt| && pgcnt[maps[t][va].frame] == 1
    ensures maps[x][v].frame == maps[t][va].frame ==> (x, v) == (t, va)
  {
    hide Namers, TaskOk, MapOk;
    var f := maps[t][va].frame;
    if maps[x][v].frame == f {
      var i, j := SlotOf(segs, maps, pgcnt, content, free, t, va);
      var k, l := SlotOf(segs, maps, pgcnt, content, free, x, v);
      NamersAre(segs, f);
      assert Names(segs, f, (t, i, j)) && Names(segs, f, (x, k, l));
      SingleMember(Namers(segs, f), (t, i, j), (x, k, l));
    }
  }

  /** A store to a writable page is seen by its task alone. */
  lemma StoredViews(segs: Segments, maps: Maps, pgcnt: seq<int>, content: map<nat, Page>, free: set<nat>,
                    t: nat, va: nat, page: Page)
    requires Sound(segs, maps, pgcnt, content, free) && t in maps && va in maps[t] && maps[t][va].writable
    ensures var f := maps[t][va].frame;
            && f in content
            && Counted(segs, pgcnt, content[f := page], free)
            && Views(maps, content[f := page]) == SeenAs(Views(maps, content), t, va, page)
  {
    hide Namers, TaskOk, MapOk, Views, View;
    var f := maps[t][va].frame;
    MappedFrames(segs, maps, pgcnt, content, free);
    forall x: nat, v: nat | x in maps && v in maps[x] && (x, v) != (t, va)
      ensures maps[x][v].frame != f
    {
      LastSlot(segs, maps, pgcnt, content, free, t, va, x, v);
    }
    assert forall g :: g in content[f := page] <==> g in content;
    ViewsAfter(maps, content, maps, content[f := page], t, va, page, f);
  }

  // ----- Tasks that come and go ----------------------------------------------------------------

  lemma CountedSame(segs: Segments, segs': Segments, pgcnt: seq<int>, content: map<nat, Page>, free: set<nat>)
    requires Counted(segs, pgcnt, content, free)
    requires forall f: nat, s: Slot :: Names(segs', f, s) <==> Names(segs, f, s)
    ensures Counted(segs', pgcnt, content, free)
  {
    forall f: nat
      ensures Namers(segs', f) == Namers(segs, f)
    {
      NamersAre(segs, f);
      NamersAre(segs', f);
    }
    forall s: Slot | IsSlot(segs', s)
      ensures segs'[s.0][s.1].pa[s.2] < |pgcnt|
    {
      assert Names(segs', segs'[s.0][s.1].pa[s.2], s);
      assert Names(segs, segs'[s.0][s.1].pa[s.2], s);
    }
  }

  lemma TaskCreated(segs: Segments, maps: Maps, pgcnt: seq<int>, content: map<nat, Page>, free: set<nat>,
                    t: nat, code: Segment, stack: Segment)
    requires Sound(segs, maps, pgcnt, content, free) && t !in segs
    requires code.va == code.pa == [] && stack.va == stack.pa == [] && code.end <= stack.start
    ensures Sound(segs[t := [code, stack]], maps[t := map[]], pgcnt, content, free)
    ensures Views(maps[t := map[]], content) == Views(maps, content)[t := map[]]
  {
    hide Namers, Counted, View, Views;
    CountedSame(segs, segs[t := [code, stack]], pgcnt, content, free);
    assert TaskOk([code, stack]) && MapOk([code, stack], map[]);
    EmptyView(maps, content, t);
  }

  lemma EmptyView(maps: Maps, content: map<nat, Page>, t: nat)
    requires t !in maps
    ensures Views(maps[t := map[]], content) == Views(maps, content)[t := map[]]
  {
    var before, after := Views(maps, content)[t := map[]], Views(maps[t := map[]], content);
    assert before.Keys == after.Keys;
  }

  /** The slots of task t before slot j of segment i, which a teardown has given up. */
  predicate Dropped(s: Slot, t: nat, i: nat, j: nat) {
    s.0 == t && (s.1 < i || (s.1 == i && s.2 < j))
  }

  ghost function NamersLeft(segs: Segments, f: nat, t: nat, i: nat, j: nat): set<Slot> {
    set s | s in Namers(segs, f) && !Dropped(s, t, i, j)
  }

  /** The counts half way through a teardown. */
  ghost predicate CountedLeft(segs: Segments, t: nat, i: nat, j: nat, pgcnt: seq<int>, content: map<nat, Page>,
                              free: set<nat>) {
    && (forall f: nat | f < |pgcnt| :: pgcnt[f] == |NamersLeft(segs, f, t, i, j)|)
    && (forall f: nat :: f in content <==> f < |pgcnt| && pgcnt[f] > 0)
    && (forall f: nat | f in free :: f < |pgcnt| && f !in content)
    && (forall s: Slot | IsSlot(segs, s) :: segs[s.0][s.1].pa[s.2] < |pgcnt|)
  }

  lemma LeftStart(segs: Segments, t: nat, pgcnt: seq<int>, content: map<nat, Page>, free: set<nat>)
    requires Counted(segs, pgcnt, content, free)
    ensures CountedLeft(segs, t, 0, 0, pgcnt, content, free)
  {
    forall f: nat
      ensures NamersLeft(segs, f, t, 0, 0) == Namers(segs, f)
    {
      assert forall s: Slot | s in Namers(segs, f) :: !Dropped(s, t, 0, 0);
    }
  }

  lemma LeftStep(segs: Segments, f: nat, t: nat, i: nat, j: nat)
    requires t in segs && i < |segs[t]| && j < |segs[t][i].pa|
    ensures |NamersLeft(segs, f, t, i, j + 1)|
            == |NamersLeft(segs, f, t, i, j)| - if segs[t][i].pa[j] == f then 1 else 0
  {
    NamersAre(segs, f);
    var s: Slot := (t, i, j);
    assert Names(segs, f, s) <==> segs[t][i].pa[j] == f;
    forall x: Slot
      ensures Dropped(x, t, i, j + 1) <==> Dropped(x, t, i, j) || x == s
    {}
    if segs[t][i].pa[j] == f {
      assert NamersLeft(segs, f, t, i, j) == NamersLeft(segs, f, t, i, j + 1) + {s};
    } else {
      assert NamersLeft(segs, f, t, i, j) == NamersLeft(segs, f, t, i, j + 1);
    }
  }

  /** `dec_pgcnt` for one slot. */
  lemma LeftDropped(segs: Segments, t: nat, i: nat, j: nat, pgcnt: seq<int>, content: map<nat, Page>, free: set<nat>)
    requires CountedLeft(segs, t, i, j, pgcnt, content, free) && t in segs && i < |segs[t]| && j < |segs[t][i].pa|
    ensures var pa := segs[t][i].pa[j];
            && pa < |pgcnt| && pgcnt[pa] >= 1
            && CountedLeft(segs, t, i, j + 1, pgcnt[pa := pgcnt[pa] - 1],
                           if pgcnt[pa] == 1 then content - {pa} else content,
                           free + if pgcnt[pa] == 1 then {pa} else {})
  {
    hide NamersLeft;
    assert IsSlot(segs, (t, i, j));
    var pa := segs[t][i].pa[j];
    LeftStep(segs, pa, t, i, j);
    var pgcnt', n := pgcnt[pa := pgcnt[pa] - 1], j + 1;
    forall f: nat | f < |pgcnt|
      ensures pgcnt'[f] == |NamersLeft(segs, f, t, i, n)|
    {
      LeftStep(segs, f, t, i, j);
    }
  }

  lemma LeftNext(segs: Segments, t: nat, i: nat, pgcnt: seq<int>, content: map<nat, Page>, free: set<nat>)
    requires t in segs && i < |segs[t]| && CountedLeft(segs, t, i, |segs[t][i].pa|, pgcnt, content, free)
    ensures CountedLeft(segs, t, i + 1, 0, pgcnt, content, free)
  {
    forall f: nat | f < |pgcnt|
      ensures pgcnt[f] == |NamersLeft(segs, f, t, i + 1, 0)|
    {
      NamersAre(segs, f);
      assert forall s: Slot | Names(segs, f, s) :: Dropped(s, t, i + 1, 0) <==> Dropped(s, t, i, |segs[t][i].pa|);
      assert NamersLeft(segs, f, t, i + 1, 0) == NamersLeft(segs, f, t, i, |segs[t][i].pa|);
    }
  }

  lemma LeftNone(segs: Segments, t: nat, pgcnt: seq<int>, content: map<nat, Page>, free: set<nat>)
    requires t in segs && CountedLeft(segs, t, |segs[t]|, 0, pgcnt, content, free)
    ensures Counted(segs - {t}, pgcnt, content, free)
  {
    var segs', n := segs - {t}, |segs[t]|;
    forall f: nat | f < |pgcnt|
      ensures pgcnt[f] == |Namers(segs', f)|
    {
      NamersAre(segs, f);
      NamersAre(segs', f);
      assert forall s: Slot | Names(segs, f, s) :: Dropped(s, t, n, 0) <==> s.0 == t;
      assert forall s: Slot :: Names(segs', f, s) <==> Names(segs, f, s) && s.0 != t;
      assert NamersLeft(segs, f, t, n, 0) == Namers(segs', f);
    }
    forall s: Slot | IsSlot(segs', s)
      ensures segs'[s.0][s.1].pa[s.2] < |pgcnt|
    {
      assert IsSlot(segs, s);
    }
  }

  /** The other tasks of a torn-down one keep their pages. */
  lemma TaskGone(segs: Segments, maps: Maps, pgcnt: seq<int>, content: map<nat, Page>, free: set<nat>,
                 t: nat, pgcnt': seq<int>, content': map<nat, Page>, free': set<nat>)
    requires Sound(segs, maps, pgcnt, content, free) && t in segs
    requires Counted(segs - {t}, pgcnt', content', free') && |pgcnt'| == |pgcnt|
    requires forall f: nat | f < |pgcnt| :: pgcnt'[f] <= pgcnt[f]
    requires forall f | f in content' :: f in content && content'[f] == content[f]
    ensures Sound(segs - {t}, maps - {t}, pgcnt', content', free')
    ensures Views(maps - {t}, content') == Views(maps, content) - {t}
  {
    hide Namers, TaskOk, MapOk, View, Counted;
    MappedFrames(segs, maps, pgcnt, content, free);
    forall x | x in maps && x != t
      ensures View(maps[x], content') == View(maps[x], content)
      ensures forall va | va in maps[x] :: maps[x][va].frame < |pgcnt'| && pgcnt'[maps[x][va].frame] >= 1
    {
      OthersKept(segs, maps, pgcnt, content, free, t, pgcnt', content', free', x);
    }
    assert Views(maps - {t}, content').Keys == (Views(maps, content) - {t}).Keys;
  }

  lemma OthersKept(segs: Segments, maps: Maps, pgcnt: seq<int>, content: map<nat, Page>, free: set<nat>,
                   t: nat, pgcnt': seq<int>, content': map<nat, Page>, free': set<nat>, x: nat)
    requires Sound(segs, maps, pgcnt, content, free) && t in segs && x in maps && x != t
    requires Counted(segs - {t}, pgcnt', content', free') && |pgcnt'| == |pgcnt|
    requires forall f | f in content' :: f in content && content'[f] == content[f]
    ensures View(maps[x], content') == View(maps[x], content)
    ensures forall va | va in maps[x] :: maps[x][va].frame < |pgcnt'| && pgcnt'[maps[x][va].frame] >= 1
  {
    hide Namers, TaskOk, MapOk, View;
    forall va | va in maps[x]
      ensures maps[x][va].frame in content' && maps[x][va].frame in content
      ensures maps[x][va].frame < |pgcnt'| && pgcnt'[maps[x][va].frame] >= 1
    {
      var i, j := SlotOf(segs, maps, pgcnt, content, free, x, va);
      NamedCounted(segs - {t}, pgcnt', content', free', (x, i, j));
    }
    SameView(maps[x], content, maps[x], content');
  }

  /** A frame is in use exactly while some slot names it. */
  lemma InUseIffNamed(segs: Segments, maps: Maps, pgcnt: seq<int>, content: map<nat, Page>, free: set<nat>, f: nat)
    requires Sound(segs, maps, pgcnt, content, free)
    ensures f in content <==> exists s: Slot :: Names(segs, f, s)
    ensures f in free ==> forall s: Slot :: !Names(segs, f, s)
  {
    NamersAre(segs, f);
    if f in content {
      assert Namers(segs, f) != {};
      var s :| s in Namers(segs, f);
      assert Names(segs, f, s);
    }
    forall s: Slot | Names(segs, f, s)
      ensures f in content
    {
      NamedCounted(segs, pgcnt, content, free, s);
    }
  }
}
