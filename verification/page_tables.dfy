/** The 4-level page tables of os-l3/abstract-machine/am/src/x86/qemu/vme.c as data: the bits of an
    entry, the tree that one address space owns, and the translation a processor finds in it
    (Intel 64 SDM volume 3A, section 4.5, 4-KByte pages, user-mode accesses). */
module PageTables {
  import opened Bits
  import opened Wrappers

  const PTE_P: nat := 1
  const PTE_W: nat := 2
  const PTE_U: nat := 4
  const PGSIZE: nat := 4096
  const ENTRIES: nat := 512
  const WORD: nat := 0x1_0000_0000_0000_0000

  /** The page tables in use, by physical address. */
  type Memory = map<nat, seq<nat>>

  /** The tables of one address space, by the indices that lead to them. */
  type Tables = map<seq<nat>, nat>

  predicate Present(e: nat) {
    And(e, PTE_P) != 0
  }

  predicate User(e: nat) {
    And(e, PTE_U) != 0
  }

  predicate Writable(e: nat) {
    And(e, PTE_W) != 0
  }

  /** `indexof`: `(addr & mask) >> shift`. */
  function IndexOf(addr: nat, level: nat): nat
    requires 1 <= level <= 4
  {
    Shr(And(addr, Mask(level)), Shift(level))
  }

  /** `mmu.pgtables[level].mask`. */
  function Mask(level: nat): nat
    requires 1 <= level <= 4
  {
    if level == 1 then 0xff80_0000_0000 else if level == 2 then 0x7f_c000_0000
    else if level == 3 then 0x3fe0_0000 else 0x1f_f000
  }

  /** `mmu.pgtables[level].shift`. */
  function Shift(level: nat): nat
    requires 1 <= level <= 4
  {
    if level == 1 then 39 else if level == 2 then 30 else if level == 3 then 21 else 12
  }

  /** The index field of an address at a level: 9 bits above the lower levels' bits. */
  function Index(addr: nat, level: nat): nat
    requires 1 <= level <= 4
  {
    addr / Span(level) % ENTRIES
  }

  /** The bytes that one entry of a table at the given level maps. */
  function Span(level: nat): nat
    requires 1 <= level <= 4
  {
    if level == 1 then 0x80_0000_0000 else if level == 2 then 0x4000_0000
    else if level == 3 then 0x20_0000 else 0x1000
  }

  lemma SpanIsPower(level: nat)
    requires 1 <= level <= 4
    ensures Pow2(Shift(level)) == Span(level) && Mask(level) == 511 * Span(level)
  {
    assert Pow2(12) == 4096;
    PowerSteps(12, 4096);
    PowerSteps(21, 0x20_0000);
    PowerSteps(30, 0x4000_0000);
  }

  lemma PowerSteps(k: nat, v: nat)
    requires Pow2(k) == v
    ensures Pow2(k + 9) == 512 * v
  {
    assert Pow2(9) == 512;
    Pow2Add(9, k);
  }

  /** Masking and shifting takes the index field. */
  lemma IndexOfIsField(addr: nat, level: nat)
    requires 1 <= level <= 4
    ensures IndexOf(addr, level) == Index(addr, level) < ENTRIES
    ensures var span := if level == 1 then 0x80_0000_0000 else if level == 2 then 0x4000_0000
                        else if level == 3 then 0x20_0000 else 0x1000;
            IndexOf(addr, level) == addr / span % 512
  {
    SpanIsPower(level);
    var k := Shift(level);
    assert Pow2(9) == 512;
    OnesValue(9);
    ShlIsProduct(Ones(9), k);
    AndShiftedMask(addr, Ones(9), k);
    AndOnes(Shr(addr, k), 9);
    LowIsRemainder(Shr(addr, k), 9);
    ShrIsQuotient(addr, k);
    var y := Low(Shr(addr, k), 9);
    ShlIsProduct(y, k);
    ShrIsQuotient(Shl(y, k), k);
    DivUnique(y * Pow2(k), Pow2(k), y, 0);
  }

  lemma BitTests(e: nat)
    ensures And(e, PTE_P) == e % 2
    ensures And(e, PTE_W) == 2 * (e / 2 % 2)
    ensures And(e, PTE_U) == 4 * (e / 4 % 2)
  {
    assert And(e, 2) == 2 * And(e / 2, 1);
    assert And(e, 4) == 2 * And(e / 2, 2) && And(e / 2, 2) == 2 * And(e / 2 / 2, 1);
  }

  /** The fields of an entry by their places in the word. */
  lemma EntryFields(e: nat)
    requires e < WORD
    ensures (Present(e) <==> e % 2 == 1) && (Writable(e) <==> e / 2 % 2 == 1) && (User(e) <==> e / 4 % 2 == 1)
    ensures PageBase(e) == e / 4096 * 4096
  {
    hide And, PageBase;
    BitTests(e);
    PageBaseValue(e);
  }

  /** A page address with flags in its low bits. */
  lemma EntryBits(page: nat, flags: nat)
    requires page % PGSIZE == 0 && page < WORD && flags < 8
    ensures Or(page, flags) == page + flags
    ensures Present(page + flags) <==> flags % 2 == 1
    ensures Writable(page + flags) <==> flags / 2 % 2 == 1
    ensures User(page + flags) <==> flags / 4 % 2 == 1
    ensures PageBase(page + flags) == page
  {
    hide And, PageBase, Or;
    assert Pow2(3) == 8;
    OrDisjoint(page, flags, 3);
    BitTests(page + flags);
    FlagArithmetic(page, flags);
    PageBaseValue(page + flags);
  }

  lemma FlagsAbove(q: nat, flags: nat)
    requires flags < 8
    ensures var e := 4096 * q + flags;
            && e / PGSIZE == q && 4096 * q % 8 == 0 && e % 2 == flags % 2 && e / 2 % 2 == flags / 2 % 2
            && e / 4 % 2 == flags / 4 % 2
  {
    var e := 4096 * q + flags;
    DivUnique(e, 2, 2048 * q + flags / 2, flags % 2);
    DivUnique(e, 4, 1024 * q + flags / 4, flags % 4);
    DivUnique(2048 * q + flags / 2, 2, 1024 * q + flags / 4, flags / 2 % 2);
    DivUnique(1024 * q + flags / 4, 2, 512 * q, flags / 4);
    DivUnique(e, PGSIZE, q, flags);
    DivUnique(4096 * q, 8, 512 * q, 0);
  }

  lemma FlagArithmetic(page: nat, flags: nat)
    requires page % PGSIZE == 0 && page < WORD && flags < 8
    ensures page % 8 == 0 && page + flags < WORD && (page + flags) / PGSIZE * PGSIZE == page
    ensures (page + flags) % 2 == flags % 2 && (page + flags) / 2 % 2 == flags / 2 % 2
    ensures (page + flags) / 4 % 2 == flags / 4 % 2
  {
    var q := page / PGSIZE;
    FlagsAbove(q, flags);
    assert page == 4096 * q;
  }

  lemma NullEntry()
    ensures !Present(0) && LeafOf(0, true) == None
  {}

  // ----- The tree ------------------------------------------------------------------------------

  const KERNEL_INDEX: nat := 0
  /** The index of the user area in the topmost table. */
  const USER_INDEX: nat := 32

  ghost predicate PathOk(tables: Tables, p: seq<nat>) {
    && |p| <= 3 && (forall i | 0 <= i < |p| :: p[i] < ENTRIES)
    && (p != [] ==> p[0] == USER_INDEX && p[..|p| - 1] in tables)
  }

  ghost predicate TableOk(mem: Memory, page: nat) {
    page in mem && |mem[page]| == ENTRIES && page % PGSIZE == 0 && 0 < page < WORD
  }

  /** An entry above the last level refers to the table below it, or is the kernel's, or is zero;
      an entry of the last level is zero or maps a frame for the user. */
  ghost predicate EntryOk(mem: Memory, tables: Tables, kernelEntry: nat, p: seq<nat>, i: nat)
    requires p in tables && TableOk(mem, tables[p]) && i < ENTRIES
  {
    var e := mem[tables[p]][i];
    if |p| >= 3 then e == 0 || (Present(e) && User(e))
    else if p + [i] in tables then e == tables[p + [i]] + PTE_P + PTE_W + PTE_U
    else e == if p == [] && i == KERNEL_INDEX then kernelEntry else 0
  }

  /** The tables of an address space form a tree of at most four levels, no page used twice. */
  ghost predicate TreeSound(mem: Memory, tables: Tables, ptr: nat, kernelEntry: nat) {
    && [] in tables && ptr == tables[[]] + PTE_P + PTE_U && !User(kernelEntry)
    && (forall p | p in tables :: PathOk(tables, p) && TableOk(mem, tables[p]))
    && (forall p, q | p in tables && q in tables && tables[p] == tables[q] :: p == q)
    && (forall p, i: nat | p in tables && i < ENTRIES :: EntryOk(mem, tables, kernelEntry, p, i))
  }

  // ----- Translation ---------------------------------------------------------------------------

  datatype Mapping = Mapping(frame: nat, writable: bool)

  function LeafOf(e: nat, writable: bool): Option<Mapping> {
    if Present(e) && User(e) then Some(Mapping(PageBase(e), writable && Writable(e))) else None
  }

  /** The processor's walk from the table at `base`: an entry that is not present or not for the user
      faults; a page is writable when every entry on the way is. */
  function WalkFrom(mem: Memory, base: nat, addr: nat, level: nat, writable: bool): Option<Mapping>
    requires 1 <= level <= 4
    decreases 4 - level
  {
    if base !in mem || |mem[base]| != ENTRIES then None
    else
      var e := mem[base][Index(addr, level)];
      if level == 4 || !Present(e) || !User(e) then LeafOf(e, writable)
      else WalkFrom(mem, PageBase(e), addr, level + 1, writable && Writable(e))
  }

  /** What the processor finds for an address under the given CR3. */
  function Translate(mem: Memory, ptr: nat, addr: nat): Option<Mapping> {
    WalkFrom(mem, PageBase(ptr), addr, 1, true)
  }

  /** The processor's walk level by level, by the numbers of its manual: it takes nine bits of the address for an
      index, goes on below entries whose bits 0 and 2 are set, and grants a write when bit 1 is set on the whole way. */
  lemma ProcessorStep(mem: Memory, base: nat, addr: nat, level: nat, writable: bool)
    requires 1 <= level <= 4 && base in mem && |mem[base]| == 512
    requires mem[base][Index(addr, level)] < WORD
    ensures var span := if level == 1 then 0x80_0000_0000 else if level == 2 then 0x4000_0000
                        else if level == 3 then 0x20_0000 else 0x1000;
            var e := mem[base][addr / span % 512];
            var granted := writable && e / 2 % 2 == 1;
            WalkFrom(mem, base, addr, level, writable)
            == if e % 2 == 0 || e / 4 % 2 == 0 then None
               else if level == 4 then Some(Mapping(e / 4096 * 4096, granted))
               else WalkFrom(mem, e / 4096 * 4096, addr, level + 1, granted)
  {
    hide And, PageBase, Present, User, Writable;
    EntryFields(mem[base][Index(addr, level)]);
  }

  lemma ProcessorStart(mem: Memory, ptr: nat, addr: nat)
    requires ptr < WORD
    ensures Translate(mem, ptr, addr) == WalkFrom(mem, ptr / 4096 * 4096, addr, 1, true)
  {
    PageBaseValue(ptr);
  }

  /** The indices that lead to the table of an address, the first `depth` of them. */
  function Path(addr: nat, depth: nat): (p: seq<nat>)
    requires depth <= 3
    ensures |p| == depth
    decreases depth
  {
    if depth == 0 then [] else Path(addr, depth - 1) + [Index(addr, depth)]
  }

  lemma {:induction false} PathPrefix(addr: nat, d: nat, depth: nat)
    requires d <= depth <= 3
    ensures Path(addr, d) == Path(addr, depth)[..d]
  {
    if d < depth {
      PathPrefix(addr, d, depth - 1);
    }
  }

  /** With a prefix missing, the whole path is missing. */
  lemma {:induction false} MissingPath(mem: Memory, tables: Tables, ptr: nat, kernelEntry: nat, addr: nat, d: nat,
                                       depth: nat)
    requires TreeSound(mem, tables, ptr, kernelEntry) && d <= depth <= 3 && Path(addr, depth) in tables
    ensures Path(addr, d) in tables
  {
    hide Index, EntryOk, TableOk;
    if d < depth {
      var p := Path(addr, depth);
      assert PathOk(tables, p);
      assert p[..|p| - 1] == Path(addr, depth - 1);
      MissingPath(mem, tables, ptr, kernelEntry, addr, d, depth - 1);
    }
  }

  /** The mapping of an address, read off the tree. */
  ghost function Lookup(mem: Memory, tables: Tables, addr: nat): Option<Mapping>
    requires forall p | p in tables :: TableOk(mem, tables[p])
  {
    var p := Path(addr, 3);
    if p in tables then
      assert TableOk(mem, tables[p]);
      LeafOf(mem[tables[p]][Index(addr, 4)], true)
    else None
  }

  lemma EntryAt(mem: Memory, tables: Tables, ptr: nat, kernelEntry: nat, p: seq<nat>, i: nat)
    requires TreeSound(mem, tables, ptr, kernelEntry) && p in tables && i < ENTRIES
    ensures PathOk(tables, p) && TableOk(mem, tables[p]) && EntryOk(mem, tables, kernelEntry, p, i)
    ensures p + [i] in tables ==> PathOk(tables, p + [i]) && TableOk(mem, tables[p + [i]])
  {}

  lemma PathStep(addr: nat, depth: nat)
    requires 1 <= depth <= 3
    ensures Path(addr, depth) == Path(addr, depth - 1) + [Index(addr, depth)] && |Path(addr, depth - 1)| < 3
    ensures Path(addr, depth - 1) == [] <==> depth == 1
  {}

  lemma TableShape(mem: Memory, page: nat)
    requires TableOk(mem, page)
    ensures page in mem && |mem[page]| == ENTRIES && page % PGSIZE == 0 && page < WORD
  {}

  /** An entry that refers to a table. */
  lemma TableEntry(mem: Memory, page: nat)
    requires TableOk(mem, page)
    ensures var e := page + PTE_P + PTE_W + PTE_U; Present(e) && User(e) && Writable(e) && PageBase(e) == page
  {
    hide Present, User, Writable, PageBase, Or, And;
    EntryBits(page, 7);
  }

  lemma OtherTable(mem: Memory, tables: Tables, ptr: nat, kernelEntry: nat, p: seq<nat>, q: seq<nat>)
    requires TreeSound(mem, tables, ptr, kernelEntry) && p in tables && q in tables
    ensures tables[p] == tables[q] <==> p == q
    ensures TableOk(mem, tables[p]) && TableOk(mem, tables[q])
  {}

  /** Where the walk goes on from the table of an address at a level. */
  lemma WalkStep(mem: Memory, tables: Tables, ptr: nat, kernelEntry: nat, addr: nat, level: nat)
    requires TreeSound(mem, tables, ptr, kernelEntry) && 1 <= level <= 3 && Path(addr, level - 1) in tables
    ensures var base := tables[Path(addr, level - 1)];
            && base in mem && |mem[base]| == ENTRIES && Index(addr, level) < ENTRIES
            && var e := mem[base][Index(addr, level)];
               if Path(addr, level) in tables
               then Present(e) && User(e) && Writable(e) && PageBase(e) == tables[Path(addr, level)]
               else !Present(e) || !User(e)
  {
    hide And, PageBase, Index, IndexOf, TreeSound, TableOk, Present, User, Writable, Path, PathOk;
    var p := Path(addr, level - 1);
    IndexOfIsField(addr, level);
    var i := Index(addr, level);
    PathStep(addr, level);
    EntryAt(mem, tables, ptr, kernelEntry, p, i);
    TableShape(mem, tables[p]);
    KernelEntry(mem, tables, ptr, kernelEntry);
    if p + [i] in tables {
      TableEntry(mem, tables[p + [i]]);
    } else {
      NullEntry();
    }
  }

  lemma KernelEntry(mem: Memory, tables: Tables, ptr: nat, kernelEntry: nat)
    requires TreeSound(mem, tables, ptr, kernelEntry)
    ensures !User(kernelEntry) && [] in tables && ptr == tables[[]] + PTE_P + PTE_U && TableOk(mem, tables[[]])
  {}

  lemma {:induction false} WalkIsLookup(mem: Memory, tables: Tables, ptr: nat, kernelEntry: nat, addr: nat, level: nat)
    requires TreeSound(mem, tables, ptr, kernelEntry) && 1 <= level <= 4 && Path(addr, level - 1) in tables
    ensures WalkFrom(mem, tables[Path(addr, level - 1)], addr, level, true) == Lookup(mem, tables, addr)
    decreases 4 - level
  {
    hide And, PageBase, Index, Present, User, Writable, Path;
    if level < 4 {
      WalkStep(mem, tables, ptr, kernelEntry, addr, level);
      if Path(addr, level) in tables {
        WalkIsLookup(mem, tables, ptr, kernelEntry, addr, level + 1);
      } else if Path(addr, 3) in tables {
        MissingPath(mem, tables, ptr, kernelEntry, addr, level, 3);
      }
    }
  }

  /** The processor's walk finds exactly what the tree says. */
  lemma TranslateIsLookup(mem: Memory, tables: Tables, ptr: nat, kernelEntry: nat, addr: nat)
    requires TreeSound(mem, tables, ptr, kernelEntry)
    ensures Translate(mem, ptr, addr) == Lookup(mem, tables, addr)
  {
    hide PageBase, WalkFrom;
    assert TableOk(mem, tables[[]]);
    EntryBits(tables[[]], PTE_P + PTE_U);
    WalkIsLookup(mem, tables, ptr, kernelEntry, addr, 1);
  }
  // ----- What the operations change ------------------------------------------------------------

  /** The addresses a processor translates with four levels: 48 bits. */
  const ADDRESSES: nat := 0x1_0000_0000_0000

  /** The four indices of an address are the base-512 digits of its page number. */
  lemma Digits(a: nat)
    requires a < ADDRESSES
    ensures var x := a / PGSIZE;
            && Index(a, 4) == x % 512 && Index(a, 3) == x / 512 % 512 && Index(a, 2) == x / 512 / 512 % 512
            && Index(a, 1) == x / 512 / 512 / 512
  {
    var x := a / PGSIZE;
    DivDiv(a, PGSIZE, 512);
    DivDiv(a, 0x20_0000, 512);
    DivDiv(a, 0x4000_0000, 512);
    assert x / 512 / 512 / 512 < 512;
    DivUnique(x / 512 / 512 / 512, 512, 0, x / 512 / 512 / 512);
  }

  lemma PathIndices(addr: nat)
    ensures Path(addr, 3) == [Index(addr, 1), Index(addr, 2), Index(addr, 3)]
  {}

  /** Two addresses meet in the same entry exactly when they lie in the same page. */
  lemma SameEntry(a: nat, b: nat)
    requires a < ADDRESSES && b < ADDRESSES
    ensures Path(a, 3) == Path(b, 3) && Index(a, 4) == Index(b, 4) <==> a / PGSIZE == b / PGSIZE
  {
    hide Index, Path;
    Digits(a);
    Digits(b);
    PathIndices(a);
    PathIndices(b);
    var p, q := Path(a, 3), Path(b, 3);
    if p == q && Index(a, 4) == Index(b, 4) {
      assert p[0] == q[0] && p[1] == q[1] && p[2] == q[2];
      var x, y := a / PGSIZE, b / PGSIZE;
      assert x / 512 / 512 == y / 512 / 512;
      assert x / 512 == y / 512;
    }
  }

  /** One word of a table written. */
  function SetEntry(mem: Memory, page: nat, i: nat, e: nat): Memory
    requires page in mem && i < |mem[page]|
  {
    var entries: seq<nat> := mem[page][i := e];
    mem[page := entries]
  }

  /** A page of zeroes, as `pgallocz` makes it. */
  function Zeros(): seq<nat> {
    seq(ENTRIES, i => 0)
  }

  /** The memory once the missing table below entry i of table p has been made. */
  ghost function Grown(mem: Memory, tables: Tables, p: seq<nat>, i: nat, page: nat): Memory
    requires p in tables && TableOk(mem, tables[p]) && i < ENTRIES
    requires page !in mem
  {
    var entry: nat := page + PTE_P + PTE_W + PTE_U;
    SetEntry(mem[page := Zeros()], tables[p], i, entry)
  }

  ghost predicate CanGrow(mem: Memory, tables: Tables, p: seq<nat>, i: nat, page: nat) {
    && p in tables && |p| < 3 && i < ENTRIES && (p == [] ==> i == USER_INDEX)
    && p + [i] !in tables && page !in mem && page % PGSIZE == 0 && 0 < page < WORD
  }

  /** The memory with a new topmost table that holds nothing but the kernel's entry. */
  function Rooted(mem: Memory, root: nat, kernelEntry: nat): Memory
    requires root !in mem
  {
    SetEntry(mem[root := Zeros()], root, KERNEL_INDEX, kernelEntry)
  }

  lemma RootedMeans(mem: Memory, root: nat, kernelEntry: nat)
    requires root !in mem
    ensures var mem' := Rooted(mem, root, kernelEntry);
            && root in mem' && mem'[root] == seq(512, i => 0)[0 := kernelEntry]
            && forall page | page in mem :: page in mem' && mem'[page] == mem[page]
  {}

  lemma RootTree(mem: Memory, root: nat, kernelEntry: nat, mem': Memory, tables: Tables)
    requires root !in mem && root % PGSIZE == 0 && 0 < root < WORD && !User(kernelEntry)
    requires mem' == Rooted(mem, root, kernelEntry) && tables == map[[] := root]
    ensures TreeSound(mem', tables, root + PTE_P + PTE_U, kernelEntry) && tables.Values == {root}
    ensures mem'.Keys == mem.Keys + {root} && forall page | page in mem :: mem'[page] == mem[page]
  {
    hide User;
    assert forall p | p in tables :: p == [];
    assert tables[[]] in tables.Values;
    assert forall p, i: nat | p in tables && i < ENTRIES :: EntryOk(mem', tables, kernelEntry, p, i);
  }

  lemma RootOnly(mem: Memory, tables: Tables, ptr: nat, kernelEntry: nat, addr: nat)
    requires TreeSound(mem, tables, ptr, kernelEntry) && tables.Keys == {[]}
    ensures Translate(mem, ptr, addr) == None
  {
    hide Translate, Path, TreeSound;
    TranslateIsLookup(mem, tables, ptr, kernelEntry, addr);
    assert Path(addr, 3) !in tables.Keys;
  }

  lemma GrownEntry(mem: Memory, tables: Tables, ptr: nat, kernelEntry: nat, p: seq<nat>, i: nat, page: nat,
                   x: seq<nat>, j: nat)
    requires TreeSound(mem, tables, ptr, kernelEntry) && CanGrow(mem, tables, p, i, page) && TableOk(mem, tables[p])
    requires j < ENTRIES && x in tables[p + [i] := page]
    requires TableOk(Grown(mem, tables, p, i, page), tables[p + [i] := page][x])
    ensures EntryOk(Grown(mem, tables, p, i, page), tables[p + [i] := page], kernelEntry, x, j)
  {
    hide Present, User, TableOk, TreeSound;
    var q := p + [i];
    NullEntry();
    TableShape(mem, tables[p]);
    if x == q {
      NoOrphan(mem, tables, ptr, kernelEntry, q, j);
    } else {
      EntryAt(mem, tables, ptr, kernelEntry, x, j);
      OtherTable(mem, tables, ptr, kernelEntry, x, p);
      TableShape(mem, tables[x]);
      assert x + [j] == q ==> x == q[..|q| - 1] == p && j == q[|q| - 1] == i;
    }
  }

  lemma GrowTree(mem: Memory, tables: Tables, ptr: nat, kernelEntry: nat, p: seq<nat>, i: nat, page: nat)
    requires TreeSound(mem, tables, ptr, kernelEntry) && CanGrow(mem, tables, p, i, page)
    ensures TreeSound(Grown(mem, tables, p, i, page), tables[p + [i] := page], ptr, kernelEntry)
  {
    hide Present, User, EntryOk;
    var mem', tables', q := Grown(mem, tables, p, i, page), tables[p + [i] := page], p + [i];
    assert TableOk(mem, tables[p]) && PathOk(tables, p);
    forall x | x in tables'
      ensures PathOk(tables', x) && TableOk(mem', tables'[x])
    {
      if x == q {
        assert q[..|q| - 1] == p;
      } else {
        assert PathOk(tables, x) && TableOk(mem, tables[x]);
      }
    }
    forall x, j: nat | x in tables' && j < ENTRIES
      ensures EntryOk(mem', tables', kernelEntry, x, j)
    {
      GrownEntry(mem, tables, ptr, kernelEntry, p, i, page, x, j);
    }
  }

  lemma NoOrphan(mem: Memory, tables: Tables, ptr: nat, kernelEntry: nat, q: seq<nat>, j: nat)
    requires TreeSound(mem, tables, ptr, kernelEntry)
    ensures q + [j] in tables ==> q in tables
    ensures q + [j] != q
  {
    if q + [j] in tables {
      assert PathOk(tables, q + [j]);
      assert (q + [j])[..|q + [j]| - 1] == q;
    }
    assert |q + [j]| == |q| + 1;
  }

  lemma TablesOk(mem: Memory, tables: Tables, ptr: nat, kernelEntry: nat)
    requires TreeSound(mem, tables, ptr, kernelEntry)
    ensures forall p | p in tables :: TableOk(mem, tables[p])
  {}

  /** Making a table changes no translation. */
  lemma GrowKeepsLookup(mem: Memory, tables: Tables, ptr: nat, kernelEntry: nat, p: seq<nat>, i: nat, page: nat,
                        addr: nat)
    requires TreeSound(mem, tables, ptr, kernelEntry) && CanGrow(mem, tables, p, i, page)
    requires TreeSound(Grown(mem, tables, p, i, page), tables[p + [i] := page], ptr, kernelEntry)
    ensures Lookup(Grown(mem, tables, p, i, page), tables[p + [i] := page], addr) == Lookup(mem, tables, addr)
  {
    hide Path, Index, Present, User, TreeSound, TableOk, LeafOf, PageBase;
    TablesOk(mem, tables, ptr, kernelEntry);
    TablesOk(Grown(mem, tables, p, i, page), tables[p + [i] := page], ptr, kernelEntry);
    IndexOfIsField(addr, 4);
    NullEntry();
    var x := Path(addr, 3);
    TableShape(mem, tables[p]);
    if x in tables {
      OtherTable(mem, tables, ptr, kernelEntry, x, p);
      TableShape(mem, tables[x]);
    }
  }

  /** What `ptwalk` reads on its way: a user address's entry is present exactly when the next table
      exists, and then refers to it. */
  lemma NextTable(mem: Memory, tables: Tables, ptr: nat, kernelEntry: nat, addr: nat, level: nat)
    requires TreeSound(mem, tables, ptr, kernelEntry) && 1 <= level <= 3 && Path(addr, level - 1) in tables
    requires Index(addr, 1) == USER_INDEX
    ensures var base := tables[Path(addr, level - 1)];
            && base in mem && |mem[base]| == ENTRIES && IndexOf(addr, level) == Index(addr, level) < ENTRIES
            && (Present(mem[base][Index(addr, level)]) <==> Path(addr, level) in tables)
            && (Path(addr, level) in tables ==> PageBase(mem[base][Index(addr, level)]) == tables[Path(addr, level)])
    ensures Path(addr, level) == Path(addr, level - 1) + [Index(addr, level)]
    ensures Path(addr, level - 1) == [] ==> Index(addr, level) == USER_INDEX
    ensures TableOk(mem, tables[Path(addr, level - 1)]) && |Path(addr, level - 1)| < 3
  {
    hide And, PageBase, Index, IndexOf, TreeSound, Present, User, Writable;
    IndexOfIsField(addr, level);
    WalkStep(mem, tables, ptr, kernelEntry, addr, level);
    EntryAt(mem, tables, ptr, kernelEntry, Path(addr, level - 1), Index(addr, level));
    NullEntry();
  }

  /** A new table in the tree: sound again, with every translation as before. */
  lemma Grow(mem: Memory, tables: Tables, ptr: nat, kernelEntry: nat, p: seq<nat>, i: nat, page: nat)
    requires TreeSound(mem, tables, ptr, kernelEntry) && CanGrow(mem, tables, p, i, page) && TableOk(mem, tables[p])
    ensures TreeSound(Grown(mem, tables, p, i, page), tables[p + [i] := page], ptr, kernelEntry)
    ensures tables[p + [i] := page].Values == tables.Values + {page} && tables.Values <= mem.Keys
    ensures Grown(mem, tables, p, i, page).Keys == mem.Keys + {page}
    ensures forall x | x in mem && x != tables[p] :: Grown(mem, tables, p, i, page)[x] == mem[x]
    ensures Grown(mem, tables, p, i, page)
            == SetEntry(mem[page := Zeros()], tables[p], i, Or(Or(page, PTE_P), PTE_W + PTE_U))
  {
    hide TreeSound, Or;
    TablesOk(mem, tables, ptr, kernelEntry);
    GrowTree(mem, tables, ptr, kernelEntry, p, i, page);
    var tables' := tables[p + [i] := page];
    assert tables'[p + [i]] in tables'.Values;
    forall x | x in tables
      ensures tables[x] in tables'.Values
    {
      assert tables'[x] == tables[x];
    }
    TableFlags(page);
  }

  lemma OrFlags(page: nat, f: nat, g: nat)
    requires page % PGSIZE == 0 && page < WORD
    requires (f == 1 && g in {4, 6}) || (f == 5 && g in {0, 2})
    ensures Or(page, f) == page + f && Or(page + f, g) == page + f + g
  {
    hide Or, Present, User, Writable, PageBase;
    EntryBits(page, f);
    FlagArithmetic(page, f);
    OrRest(page / 8, f, g);
  }

  lemma OrStep(x: nat, b: nat, y: nat, c: nat)
    requires b < 2 && c < 2
    ensures Or(2 * x + b, 2 * y + c) == 2 * Or(x, y) + if b == 1 || c == 1 then 1 else 0
  {
    if x == 0 && b == 0 {
      OrZero(0);
    }
  }

  /** Oring flags that are not set yet adds them. */
  lemma OrRest(q: nat, f: nat, g: nat)
    requires (f == 1 && g in {4, 6}) || (f == 5 && g in {0, 2})
    ensures Or(8 * q + f, g) == 8 * q + f + g
  {
    hide Or;
    OrStep(4 * q + f / 2, f % 2, g / 2, g % 2);
    OrStep(2 * q + f / 4, f / 2 % 2, g / 4, g / 2 % 2);
    OrStep(q, f / 4, 0, g / 4);
    OrZero(q);
  }

  /** `next_page | PTE_P | flags` adds the flags up. */
  lemma TableFlags(page: nat)
    requires page % PGSIZE == 0 && page < WORD
    ensures Or(Or(page, PTE_P), PTE_W + PTE_U) == page + PTE_P + PTE_W + PTE_U
  {
    OrFlags(page, PTE_P, PTE_W + PTE_U);
  }

  lemma GrowTranslations(mem: Memory, tables: Tables, ptr: nat, kernelEntry: nat, p: seq<nat>, i: nat, page: nat,
                         addr: nat)
    requires TreeSound(mem, tables, ptr, kernelEntry) && CanGrow(mem, tables, p, i, page) && TableOk(mem, tables[p])
    ensures Translate(Grown(mem, tables, p, i, page), ptr, addr) == Translate(mem, ptr, addr)
  {
    hide TreeSound, TableOk, Grown, Translate, Lookup;
    GrowTree(mem, tables, ptr, kernelEntry, p, i, page);
    TranslateIsLookup(mem, tables, ptr, kernelEntry, addr);
    TranslateIsLookup(Grown(mem, tables, p, i, page), tables[p + [i] := page], ptr, kernelEntry, addr);
    TablesOk(mem, tables, ptr, kernelEntry);
    TablesOk(Grown(mem, tables, p, i, page), tables[p + [i] := page], ptr, kernelEntry);
    GrowKeepsLookup(mem, tables, ptr, kernelEntry, p, i, page, addr);
  }

  /** Writing a leaf entry is a finite-map update of the translation. */
  lemma LeafTree(mem: Memory, tables: Tables, ptr: nat, kernelEntry: nat, p: seq<nat>, i: nat, e: nat)
    requires TreeSound(mem, tables, ptr, kernelEntry) && p in tables && |p| == 3 && i < ENTRIES
    requires e == 0 || (Present(e) && User(e))
    ensures tables[p] in mem && |mem[tables[p]]| == ENTRIES
    ensures TreeSound(SetEntry(mem, tables[p], i, e), tables, ptr, kernelEntry)
  {
    hide Present, User;
    assert TableOk(mem, tables[p]);
    var mem' := SetEntry(mem, tables[p], i, e);
    forall x | x in tables
      ensures PathOk(tables, x) && TableOk(mem', tables[x])
    {
      assert PathOk(tables, x) && TableOk(mem, tables[x]);
    }
    forall x, j: nat | x in tables && j < ENTRIES
      ensures EntryOk(mem', tables, kernelEntry, x, j)
    {
      assert TableOk(mem, tables[x]) && EntryOk(mem, tables, kernelEntry, x, j);
    }
  }

  lemma LeafLookup(mem: Memory, tables: Tables, ptr: nat, kernelEntry: nat, addr: nat, e: nat, v: nat)
    requires TreeSound(mem, tables, ptr, kernelEntry) && Path(addr, 3) in tables && addr < ADDRESSES && v < ADDRESSES
    requires var t := tables[Path(addr, 3)];
             && t in mem && |mem[t]| == ENTRIES && Index(addr, 4) < ENTRIES
             && TreeSound(SetEntry(mem, t, Index(addr, 4), e), tables, ptr, kernelEntry)
    ensures var t := tables[Path(addr, 3)];
            Lookup(SetEntry(mem, t, Index(addr, 4), e), tables, v)
            == if v / PGSIZE == addr / PGSIZE then LeafOf(e, true) else Lookup(mem, tables, v)
  {
    hide Path, Index, Present, User, TreeSound, TableOk, LeafOf, PageBase;
    var t, p, q := tables[Path(addr, 3)], Path(addr, 3), Path(v, 3);
    TablesOk(mem, tables, ptr, kernelEntry);
    TablesOk(SetEntry(mem, t, Index(addr, 4), e), tables, ptr, kernelEntry);
    SameEntry(addr, v);
    IndexOfIsField(v, 4);
    if q in tables {
      OtherTable(mem, tables, ptr, kernelEntry, p, q);
      TableShape(mem, tables[q]);
    }
  }

  /** A leaf entry written: sound again, and a finite-map update of the translation. */
  lemma WriteLeaf(mem: Memory, tables: Tables, ptr: nat, kernelEntry: nat, addr: nat, e: nat)
    requires TreeSound(mem, tables, ptr, kernelEntry) && Path(addr, 3) in tables && addr < ADDRESSES
    requires e == 0 || (Present(e) && User(e))
    ensures var t := tables[Path(addr, 3)];
            && t in mem && |mem[t]| == ENTRIES && IndexOf(addr, 4) == Index(addr, 4) < ENTRIES
            && TreeSound(SetEntry(mem, t, Index(addr, 4), e), tables, ptr, kernelEntry)
  {
    hide TreeSound, IndexOf, Index, Path, Present, User;
    IndexOfIsField(addr, 4);
    TablesOk(mem, tables, ptr, kernelEntry);
    PathIndices(addr);
    LeafTree(mem, tables, ptr, kernelEntry, Path(addr, 3), Index(addr, 4), e);
  }

  lemma LeafTranslations(mem: Memory, tables: Tables, ptr: nat, kernelEntry: nat, addr: nat, e: nat, v: nat)
    requires TreeSound(mem, tables, ptr, kernelEntry) && Path(addr, 3) in tables && addr < ADDRESSES && v < ADDRESSES
    requires e == 0 || (Present(e) && User(e))
    ensures var t := tables[Path(addr, 3)];
            && t in mem && |mem[t]| == ENTRIES && Index(addr, 4) < ENTRIES
            && Translate(SetEntry(mem, t, Index(addr, 4), e), ptr, v)
               == if v / PGSIZE == addr / PGSIZE then LeafOf(e, true) else Translate(mem, ptr, v)
  {
    hide TreeSound, Translate, Lookup, Path, Index, LeafOf, SetEntry, Present, User;
    WriteLeaf(mem, tables, ptr, kernelEntry, addr, e);
    var mem' := SetEntry(mem, tables[Path(addr, 3)], Index(addr, 4), e);
    TablesOk(mem, tables, ptr, kernelEntry);
    TablesOk(mem', tables, ptr, kernelEntry);
    TranslateIsLookup(mem, tables, ptr, kernelEntry, v);
    TranslateIsLookup(mem', tables, ptr, kernelEntry, v);
    LeafLookup(mem, tables, ptr, kernelEntry, addr, e, v);
  }

  /** The entry that `ptwalk` ends at tells whether its address is mapped. */
  lemma LeafEntryRead(mem: Memory, tables: Tables, ptr: nat, kernelEntry: nat, addr: nat)
    requires TreeSound(mem, tables, ptr, kernelEntry) && Path(addr, 3) in tables
    ensures var t := tables[Path(addr, 3)];
            && t in mem && |mem[t]| == ENTRIES && IndexOf(addr, 4) == Index(addr, 4) < ENTRIES
            && (Present(mem[t][Index(addr, 4)]) <==> Translate(mem, ptr, addr).Some?)
  {
    hide IndexOf, Index, Path, Present, User, TreeSound, Translate, PageBase;
    IndexOfIsField(addr, 4);
    TablesOk(mem, tables, ptr, kernelEntry);
    PathIndices(addr);
    EntryAt(mem, tables, ptr, kernelEntry, Path(addr, 3), Index(addr, 4));
    TranslateIsLookup(mem, tables, ptr, kernelEntry, addr);
    NullEntry();
  }

  // ----- Tables below a path -------------------------------------------------------------------

  ghost predicate Below(path: seq<nat>, n: nat, p: seq<nat>) {
    |path| < |p| && p[..|path|] == path && p[|path|] < n
  }

  /** The pages of the tables below a path whose next index is under n. */
  ghost function PagesBelow(tables: Tables, path: seq<nat>, n: nat): set<nat> {
    set p | p in tables && Below(path, n, p) :: tables[p]
  }

  /** The pages of the table at a path and of all tables below it. */
  ghost function PagesUnder(tables: Tables, path: seq<nat>): set<nat>
    requires path in tables
  {
    {tables[path]} + PagesBelow(tables, path, ENTRIES)
  }

  lemma ExtendsBelow(path: seq<nat>, n: nat, p: seq<nat>)
    ensures Below(path, n + 1, p) <==>
            Below(path, n, p) || (|path| < |p| && p[..|path| + 1] == path + [n])
  {
    if |path| < |p| {
      assert p[..|path| + 1] == p[..|path|] + [p[|path|]];
      assert (path + [n])[..|path|] == path && (path + [n])[|path|] == n;
    }
  }

  lemma NextBelow(mem: Memory, tables: Tables, ptr: nat, kernelEntry: nat, path: seq<nat>, n: nat)
    requires TreeSound(mem, tables, ptr, kernelEntry)
    ensures PagesBelow(tables, path, n + 1) == PagesBelow(tables, path, n)
            + if path + [n] in tables then PagesUnder(tables, path + [n]) else {}
  {
    var next := path + [n];
    forall p | p in tables
      ensures Below(path, n + 1, p) <==> Below(path, n, p) || p == next || Below(next, ENTRIES, p)
      ensures Below(next, ENTRIES, p) ==> next in tables
    {
      ExtendsBelow(path, n, p);
      assert PathOk(tables, p);
      if |next| < |p| && p[..|next|] == next {
        PrefixIn(mem, tables, ptr, kernelEntry, p, |next|);
      }
      assert |p| == |next| ==> p[..|next|] == p;
    }
  }

  lemma {:induction false} PrefixIn(mem: Memory, tables: Tables, ptr: nat, kernelEntry: nat, p: seq<nat>, n: nat)
    requires TreeSound(mem, tables, ptr, kernelEntry) && p in tables && n <= |p|
    ensures p[..n] in tables
    decreases |p|
  {
    if n == |p| {
      assert p[..n] == p;
    } else {
      assert PathOk(tables, p);
      assert p[..|p| - 1][..n] == p[..n];
      PrefixIn(mem, tables, ptr, kernelEntry, p[..|p| - 1], n);
    }
  }

  /** The pages below an index are none of those under the next one, nor the table itself. */
  lemma BelowApart(mem: Memory, tables: Tables, ptr: nat, kernelEntry: nat, path: seq<nat>, n: nat)
    requires TreeSound(mem, tables, ptr, kernelEntry) && path in tables
    ensures tables[path] !in PagesBelow(tables, path, n)
    ensures path + [n] in tables ==> PagesUnder(tables, path + [n]) !! PagesBelow(tables, path, n)
  {
    var next := path + [n];
    forall p | p in tables && Below(path, n, p)
      ensures p != next && !Below(next, ENTRIES, p) && p != path
    {
      assert p[|path|] != n && next[|path|] == n;
      assert |next| < |p| ==> p[..|next|][|path|] == p[|path|];
    }
  }

  lemma AllUnderRoot(mem: Memory, tables: Tables, ptr: nat, kernelEntry: nat)
    requires TreeSound(mem, tables, ptr, kernelEntry)
    ensures PagesUnder(tables, []) == tables.Values
  {
    forall p | p in tables
      ensures p == [] || Below([], ENTRIES, p)
    {
      assert PathOk(tables, p);
      assert p[..0] == [];
    }
  }

  /** What `teardown` reads in a table: an entry for the user is the table below, or a leaf. */
  lemma ChildEntry(mem: Memory, tables: Tables, ptr: nat, kernelEntry: nat, path: seq<nat>, i: nat)
    requires TreeSound(mem, tables, ptr, kernelEntry) && path in tables && i < ENTRIES
    ensures var t := tables[path];
            && t in mem && |mem[t]| == ENTRIES && t % PGSIZE == 0 && 0 <= t < WORD
            && (path + [i] in tables ==>
                 |path| < 3 && Present(mem[t][i]) && User(mem[t][i]) && PageBase(mem[t][i]) == tables[path + [i]])
            && (path + [i] !in tables && Present(mem[t][i]) && User(mem[t][i]) ==> |path| == 3)
  {
    hide TreeSound, TableOk, Present, User, Writable, PageBase;
    EntryAt(mem, tables, ptr, kernelEntry, path, i);
    TableShape(mem, tables[path]);
    KernelEntry(mem, tables, ptr, kernelEntry);
    NullEntry();
    if path + [i] in tables {
      assert |path + [i]| == |path| + 1;
      TableEntry(mem, tables[path + [i]]);
    }
  }
}
