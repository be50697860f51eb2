/** Address spaces of os-l3/abstract-machine/am/src/x86/qemu/vme.c (x86_64): the operations that walk
    and write page-table pages, proved against the processor's translation. */
module Vme {
  import opened Bits
  import opened PageTables
  import opened Wrappers

  const USER_START: nat := 0x1000_0000_0000
  const USER_END: nat := 0x1080_0000_0000
  const KERNEL_END: nat := 0x80_0000_0000
  const MMAP_NONE: nat := 0
  const MMAP_WRITE: nat := 2

  /** The panics of `map`. */
  datatype Reason = InvalidAddress | Unaligned | OutOfPages | NotMapped | AlreadyMapped

  datatype Outcome = Done | Panic(reason: Reason)

  /** All user addresses share one entry of the topmost table. */
  lemma UserIndex(addr: nat)
    requires USER_START <= addr < USER_END
    ensures Index(addr, 1) == USER_INDEX
  {
    DivUnique(addr, 0x80_0000_0000, 32, addr - USER_START);
  }

  lemma Aligned(addr: nat)
    requires addr < WORD
    ensures addr == PageBase(addr) <==> addr % PGSIZE == 0
  {
    PageBaseValue(addr);
  }

  /** The leaf entry for a frame: `pa | PTE_P | PTE_U | (prot & MMAP_WRITE ? PTE_W : 0)`. */
  function LeafEntry(pa: nat, prot: nat): nat {
    Or(Or(Or(pa, PTE_P), PTE_U), if And(prot, MMAP_WRITE) != 0 then PTE_W else 0)
  }

  lemma LeafEntryMaps(pa: nat, prot: nat)
    requires pa % PGSIZE == 0 && pa < WORD
    ensures Present(LeafEntry(pa, prot)) && User(LeafEntry(pa, prot))
    ensures LeafOf(LeafEntry(pa, prot), true) == Some(Mapping(pa, And(prot, MMAP_WRITE) != 0))
  {
    hide Or, And, Present, User, Writable, PageBase;
    OrFlags(pa, PTE_P, PTE_U);
    OrFlags(pa, PTE_P + PTE_U, if And(prot, MMAP_WRITE) != 0 then PTE_W else 0);
    EntryBits(pa, PTE_P + PTE_U + if And(prot, MMAP_WRITE) != 0 then PTE_W else 0);
  }

  predicate InUserArea(addr: nat) {
    USER_START <= addr < USER_END
  }

  /** How many pages the allocator has left. */
  ghost function Count(free: set<nat>): nat {
    |free|
  }

  lemma OneTaken(free: set<nat>, free': set<nat>, page: nat)
    requires page in free && free' == free - {page}
    ensures Count(free) == Count(free') + 1
  {}

  lemma NoneLeft(free: set<nat>)
    requires free == {}
    ensures Count(free) == 0
  {}

  lemma PagesLeft(free: set<nat>)
    ensures Count(free) == |free|
  {}

  /** How many tables a walk to an address has to make. */
  ghost function Missing(tables: Tables, addr: nat): nat {
    (if Path(addr, 1) in tables then 0 else 1) + (if Path(addr, 2) in tables then 0 else 1)
    + (if Path(addr, 3) in tables then 0 else 1)
  }

  lemma OneLess(tables: Tables, tables': Tables, addr: nat, level: nat)
    requires 1 <= level <= 3 && Path(addr, level) !in tables && tables'.Keys == tables.Keys + {Path(addr, level)}
    ensures Missing(tables, addr) == Missing(tables', addr) + 1
  {}

  lemma SomeMissing(tables: Tables, addr: nat, level: nat)
    requires 1 <= level <= 3 && Path(addr, level) !in tables
    ensures Missing(tables, addr) > 0
  {}

  lemma NoneMissing(tables: Tables, addr: nat)
    requires Path(addr, 1) in tables && Path(addr, 2) in tables && Path(addr, 3) in tables
    ensures Missing(tables, addr) == 0
  {}

  class AddrSpace {
    /** `kpt`, the kernel's topmost table. */
    const kpt: nat
    /** The page-table pages of the machine: the kernel's, this address space's and any others. */
    var mem: Memory
    /** The pages that `pgalloc` may hand out. */
    var free: set<nat>
    /** `as->ptr`, the value for CR3. */
    var ptr: nat
    ghost var tables: Tables

    ghost predicate MachineOk()
      reads this
    {
      && kpt in mem && |mem[kpt]| == ENTRIES && !User(mem[kpt][KERNEL_INDEX])
      && (forall page | page in free :: page !in mem && page % PGSIZE == 0 && 0 < page < WORD)
    }

    ghost predicate Valid()
      reads this
    {
      MachineOk() && kpt !in tables.Values && TreeSound(mem, tables, ptr, mem[kpt][KERNEL_INDEX])
    }

    /** Everything but this address space's tables is as before: the kernel's tables and those of
        other address spaces. */
    twostate predicate OthersKept()
      reads this
    {
      && (forall page | page in old(mem) && page !in old(tables).Values :: page in mem && mem[page] == old(mem)[page])
      && (forall page | page in mem && page !in tables.Values :: page in old(mem))
    }

    constructor (kpt: nat, mem: Memory, free: set<nat>)
      requires kpt in mem && |mem[kpt]| == ENTRIES && !User(mem[kpt][KERNEL_INDEX])
      requires forall page | page in free :: page !in mem && page % PGSIZE == 0 && 0 < page < WORD
      ensures MachineOk() && this.kpt == kpt && this.mem == mem && this.free == free && tables == map[]
    {
      this.kpt, this.mem, this.free := kpt, mem, free;
      ptr := 0;
      tables := map[];
    }

    /** `pgallocz`: a page from the allocator, filled with zeroes; none when the allocator has run
        dry, on which the source panics. */
    method PgAllocZ() returns (page: Option<nat>)
      requires MachineOk()
      modifies this`mem, this`free
      ensures MachineOk()
      ensures page == None <==> old(free) == {}
      ensures page == None ==> mem == old(mem) && free == old(free)
      ensures page.Some? ==>
                && page.value in old(free) && page.value !in old(mem)
                && page.value % PGSIZE == 0 && 0 < page.value < WORD
                && mem == old(mem)[page.value := Zeros()] && free == old(free) - {page.value}
    {
      if free == {} {
        return None;
      }
      var base: nat :| base in free;
      free := free - {base};
      mem := mem[base := Zeros()];
      page := Some(base);
    }

    /** The loop of `protect` over the kernel area, 512 GiB a step. */
    method CopyKernel(root: nat, ghost mem0: Memory)
      requires root !in mem0 && kpt in mem0 && |mem0[kpt]| == ENTRIES && mem == mem0[root := Zeros()]
      modifies this`mem
      ensures mem == Rooted(mem0, root, mem0[kpt][KERNEL_INDEX])
    {
      var cur := 0;
      while cur != KERNEL_END
        invariant cur == 0 || cur == KERNEL_END
        invariant mem == if cur == 0 then mem0[root := Zeros()] else Rooted(mem0, root, mem0[kpt][KERNEL_INDEX])
        decreases KERNEL_END - cur
      {
        var index := IndexOf(cur, 1);
        IndexOfIsField(cur, 1);
        mem := SetEntry(mem, root, index, mem[kpt][index]);
        cur := cur + Span(1);
      }
    }

    /** `protect`: a new topmost table that shares the kernel's entry. */
    method Protect() returns (ok: bool)
      requires MachineOk() && tables == map[]
      modifies this
      ensures ok <==> old(free) != {}
      ensures !ok ==> mem == old(mem) && free == old(free)
      ensures ok ==> Valid() && OthersKept() && free + tables.Values == old(free) && free !! tables.Values
      ensures ok ==> forall addr: nat :: Translate(mem, ptr, addr) == None
      ensures ok ==>
                && tables.Keys == {[]} && tables[[]] in old(free) && ptr == tables[[]] + 5
                && tables[[]] in mem && |mem[tables[[]]]| == 512 && |old(mem)[kpt]| == 512
                && mem[tables[[]]] == seq(512, i => 0)[0 := old(mem)[kpt][0]]
      ensures forall page | page in old(mem) :: page in mem && mem[page] == old(mem)[page]
    {
      hide TreeSound, Translate, User, Or, Rooted, PageBase, Zeros;
      var upt := PgAllocZ();
      if upt == None {
        return false;
      }
      var root := upt.value;
      CopyKernel(root, old(mem));
      RootedMeans(old(mem), root, old(mem)[kpt][KERNEL_INDEX]);
      ptr := Or(root, PTE_P + PTE_U);
      EntryBits(root, PTE_P + PTE_U);
      tables := map[[] := root];
      RootTree(old(mem), root, old(mem)[kpt][KERNEL_INDEX], mem, tables);
      forall addr: nat
        ensures Translate(mem, ptr, addr) == None
      {
        RootOnly(mem, tables, ptr, mem[kpt][KERNEL_INDEX], addr);
      }
      ok := true;
    }

    ghost predicate Reaches(addr: nat, depth: nat, page: nat)
      requires depth <= 3
      reads this`tables
    {
      Path(addr, depth) in tables && tables[Path(addr, depth)] == page
    }

    ghost predicate Ready()
      reads this
    {
      Valid() && free !! tables.Values
    }

    /** New tables at most: no page is lost and no translation changes. */
    twostate predicate OnlyGrew()
      reads this
    {
      && ptr == old(ptr) && free + tables.Values == old(free) + old(tables).Values
      && OthersKept()
      && (forall p | p in old(tables) :: p in tables && tables[p] == old(tables)[p])
      && (forall a: nat :: Translate(mem, ptr, a) == old(Translate(mem, ptr, a)))
    }

    /** A page of this address space lies in `mem`. */
    lemma TablesInUse()
      requires Valid()
      ensures tables.Values <= mem.Keys
      ensures forall page | page in tables.Values :: page % PGSIZE == 0 && 0 < page < WORD
    {
      assert forall p | p in tables :: TableOk(mem, tables[p]);
    }

    /** The branch of `ptwalk` for a missing table: a zeroed page is hung below `cur`. */
    method MakeTable(addr: nat, level: nat, cur: nat) returns (next: Option<nat>)
      requires Ready() && InUserArea(addr) && 1 <= level <= 3 && Reaches(addr, level - 1, cur)
      requires Path(addr, level) !in tables
      modifies this`mem, this`free, this`tables
      ensures Ready() && OnlyGrew()
      ensures next == None <==> old(free) == {}
      ensures next == None ==> mem == old(mem) && free == old(free) && tables == old(tables)
      ensures next.Some? ==> Reaches(addr, level, next.value)
      ensures next.Some? ==> next.value in old(free) && free == old(free) - {next.value}
      ensures next.Some? ==> tables.Keys == old(tables.Keys) + {Path(addr, level)}
    {
      hide TreeSound, Translate, Present, PageBase, IndexOf, Or, SetEntry, Zeros, Path, Index;
      var index := IndexOf(addr, level);
      ghost var kernelEntry, p := mem[kpt][KERNEL_INDEX], Path(addr, level - 1);
      UserIndex(addr);
      NextTable(mem, tables, ptr, kernelEntry, addr, level);
      var page := PgAllocZ();
      if page == None {
        return None;
      }
      mem := SetEntry(mem, cur, index, Or(Or(page.value, PTE_P), PTE_W + PTE_U));
      tables := tables[p + [index] := page.value];
      Grow(old(mem), old(tables), ptr, kernelEntry, p, index, page.value);
      forall a: nat
        ensures Translate(mem, ptr, a) == old(Translate(mem, ptr, a))
      {
        GrowTranslations(old(mem), old(tables), ptr, kernelEntry, p, index, page.value, a);
      }
      next := page;
    }

    /** One round of the loop of `ptwalk`: goes to the next table, making it when it is missing. */
    method Descend(addr: nat, level: nat, cur: nat) returns (next: Option<nat>)
      requires Ready() && InUserArea(addr) && 1 <= level <= 3 && Reaches(addr, level - 1, cur)
      modifies this`mem, this`free, this`tables
      ensures Ready() && OnlyGrew()
      ensures next == None <==> Path(addr, level) !in old(tables) && old(free) == {}
      ensures next == None || Path(addr, level) in old(tables) ==>
                mem == old(mem) && free == old(free) && tables == old(tables)
      ensures next.Some? ==> Count(free) + Missing(old(tables), addr) == Count(old(free)) + Missing(tables, addr)
      ensures next.Some? ==> Reaches(addr, level, next.value)
    {
      hide TreeSound, Translate, Present, PageBase, IndexOf, Or, SetEntry, Zeros, Path, Index, Missing, Count;
      var index := IndexOf(addr, level);
      UserIndex(addr);
      NextTable(mem, tables, ptr, mem[kpt][KERNEL_INDEX], addr, level);
      if !Present(mem[cur][index]) {
        next := MakeTable(addr, level, cur);
        if next.Some? {
          OneLess(old(tables), tables, addr, level);
          OneTaken(old(free), free, next.value);
        }
      } else {
        next := Some(PageBase(mem[cur][index]));
      }
    }

    /** `ptwalk` with the flags PTE_W and PTE_U: the table that holds the address's leaf entry. */
    method PtWalk(addr: nat) returns (table: Option<nat>)
      requires Ready() && InUserArea(addr)
      modifies this`mem, this`free, this`tables
      ensures Ready() && OnlyGrew()
      ensures forall p | p in old(tables) :: p in tables && tables[p] == old(tables)[p]
      ensures forall a: nat :: Translate(mem, ptr, a) == old(Translate(mem, ptr, a))
      ensures table == None <==> Count(old(free)) < Missing(old(tables), addr)
      ensures table == None ==> free == {} && Path(addr, 3) !in old(tables)
      ensures table.Some? ==> Reaches(addr, 3, table.value)
      ensures table.Some? ==> Count(old(free)) == Count(free) + Missing(old(tables), addr)
      ensures Path(addr, 3) in old(tables) ==>
                mem == old(mem) && free == old(free) && tables == old(tables) && table.Some?
    {
      hide TreeSound, Translate, PageBase, Missing, Count;
      RootReached(addr);
      var cur, level := PageBase(ptr), 1;
      while level < 4
        invariant 1 <= level <= 4 && Ready() && OnlyGrew() && Reaches(addr, level - 1, cur)
        invariant Count(free) + Missing(old(tables), addr) == Count(old(free)) + Missing(tables, addr)
        invariant Path(addr, 3) in old(tables) ==> mem == old(mem) && free == old(free) && tables == old(tables)
      {
        PathOnWay(addr, level);
        var next := Descend(addr, level, cur);
        if next == None {
          SomeMissing(tables, addr, level);
          NoneLeft(free);
          return None;
        }
        cur := next.value;
        level := level + 1;
      }
      PathOnWay(addr, 1);
      PathOnWay(addr, 2);
      NoneMissing(tables, addr);
      table := Some(cur);
    }

    lemma RootReached(addr: nat)
      requires Valid()
      ensures Reaches(addr, 0, PageBase(ptr))
    {
      hide TreeSound, PageBase;
      KernelEntry(mem, tables, ptr, mem[kpt][KERNEL_INDEX]);
      EntryBits(tables[[]], PTE_P + PTE_U);
    }

    lemma PathOnWay(addr: nat, level: nat)
      requires Valid() && 1 <= level <= 3
      ensures Path(addr, 3) in tables ==> Path(addr, level) in tables
    {
      if Path(addr, 3) in tables {
        MissingPath(mem, tables, ptr, mem[kpt][KERNEL_INDEX], addr, level, 3);
      }
    }

    lemma Unmapped(addr: nat)
      requires Valid()
      ensures Path(addr, 3) !in tables ==> Translate(mem, ptr, addr) == None
    {
      TranslateIsLookup(mem, tables, ptr, mem[kpt][KERNEL_INDEX], addr);
    }

    /** The write of a leaf entry in `map`. */
    method WriteEntry(va: nat, table: nat, e: nat)
      requires Ready() && va < ADDRESSES && Reaches(va, 3, table) && (e == 0 || (Present(e) && User(e)))
      modifies this`mem
      ensures Ready() && OthersKept()
      ensures forall a: nat | a < ADDRESSES ::
                Translate(mem, ptr, a) == if a / PGSIZE == va / PGSIZE then LeafOf(e, true)
                    else old(Translate(mem, ptr, a))
    {
      hide TreeSound, Translate, IndexOf, Index, Path, Present, User, LeafOf;
      ghost var kernelEntry := mem[kpt][KERNEL_INDEX];
      WriteLeaf(mem, tables, ptr, kernelEntry, va, e);
      TablesInUse();
      assert table in tables.Values;
      mem := SetEntry(mem, table, IndexOf(va, 4), e);
      forall a: nat | a < ADDRESSES
        ensures Translate(mem, ptr, a) == if a / PGSIZE == va / PGSIZE then LeafOf(e, true)
                else old(Translate(mem, ptr, a))
      {
        LeafTranslations(old(mem), tables, ptr, kernelEntry, va, e, a);
      }
    }

    /** `map`: a finite-map update of the processor's translation, or a panic that leaves every
        translation as it was. */
    method Map(va: nat, pa: nat, prot: nat) returns (r: Outcome)
      requires Ready() && va < 0x1_0000_0000_0000_0000 && pa < 0x1_0000_0000_0000_0000
      modifies this`mem, this`free, this`tables
      ensures Ready() && OthersKept() && free + tables.Values == old(free) + old(tables).Values
      ensures r == Panic(InvalidAddress) <==> !(0x1000_0000_0000 <= va < 0x1080_0000_0000)
      ensures forall page | page in old(mem) && page !in old(tables).Values ::
                page in mem && mem[page] == old(mem)[page]
      ensures forall page | page in mem && page !in tables.Values :: page in old(mem)
      ensures forall p | p in old(tables) :: p in tables && tables[p] == old(tables)[p]
      ensures r == Panic(Unaligned) <==> InUserArea(va) && !(va % PGSIZE == 0 && pa % PGSIZE == 0)
      ensures r == Panic(OutOfPages) <==>
              InUserArea(va) && va % PGSIZE == 0 && pa % PGSIZE == 0 && Count(old(free)) < Missing(old(tables), va)
      ensures r == Panic(OutOfPages) ==> free == {} && old(Translate(mem, ptr, va)) == None
      ensures r == Panic(NotMapped) <==>
              InUserArea(va) && va % PGSIZE == 0 && pa % PGSIZE == 0 && Count(old(free)) >= Missing(old(tables), va)
                  && prot == MMAP_NONE && old(Translate(mem, ptr, va)) == None
      ensures r == Panic(AlreadyMapped) <==>
              InUserArea(va) && va % PGSIZE == 0 && pa % PGSIZE == 0 && prot != MMAP_NONE
                  && old(Translate(mem, ptr, va)).Some?
      ensures r == Done <==>
              InUserArea(va) && va % PGSIZE == 0 && pa % PGSIZE == 0 && Count(old(free)) >= Missing(old(tables), va)
                  && (prot == MMAP_NONE <==> old(Translate(mem, ptr, va)).Some?)
      ensures r.Panic? ==> forall a: nat :: Translate(mem, ptr, a) == old(Translate(mem, ptr, a))
      ensures r == Done ==> forall a: nat | a < 0x1_0000_0000_0000 ::
                Translate(mem, ptr, a) ==
                  if a / 4096 != va / 4096 then old(Translate(mem, ptr, a))
                  else if prot == 0 then None
                  else Some(Mapping(pa, prot / 2 % 2 == 1))
    {
      hide TreeSound, Translate, IndexOf, Index, Path, Present, User, PageBase, LeafEntry, Missing, Count, And;
      if !InUserArea(va) {
        return Panic(InvalidAddress);
      }
      Aligned(va);
      Aligned(pa);
      if va != PageBase(va) || pa != PageBase(pa) {
        return Panic(Unaligned);
      }
      Unmapped(va);
      var table := PtWalk(va);
      if table == None {
        return Panic(OutOfPages);
      }
      LeafEntryRead(mem, tables, ptr, mem[kpt][KERNEL_INDEX], va);
      var entry := mem[table.value][IndexOf(va, 4)];
      if prot == MMAP_NONE {
        if !Present(entry) {
          return Panic(NotMapped);
        }
        NullEntry();
        WriteEntry(va, table.value, 0);
      } else {
        if Present(entry) {
          return Panic(AlreadyMapped);
        }
        LeafEntryMaps(pa, prot);
        BitTests(prot);
        WriteEntry(va, table.value, LeafEntry(pa, prot));
      }
      table := PtWalk(va);
      r := Done;
    }

    /** `pgfree` of a page that is in use, and so not free already. */
    method PgFree(page: nat)
      requires page in mem && page !in free
      modifies this`mem, this`free
      ensures mem == old(mem) - {page} && free == old(free) + {page}
    {
      mem := mem - {page};
      free := free + {page};
    }

    /** `teardown`: frees the table at `pt` and every table below it, once each. Leaf frames and the
        kernel's table are not touched, as the recursion only follows entries for the user and stops
        below the last level. The ghost `mem0` is the memory before the teardown began. */
    method Teardown(level: nat, pt: nat, ghost path: seq<nat>, ghost mem0: Memory, ghost kernelEntry: nat)
      requires TreeSound(mem0, tables, ptr, kernelEntry) && level >= 1
      requires level <= 4 ==> path in tables && tables[path] == pt && |path| == level - 1
      requires level <= 4 ==> forall page | page in PagesUnder(tables, path) :: page in mem && mem[page] == mem0[page]
      requires free !! mem.Keys
      modifies this`mem, this`free
      ensures free !! mem.Keys
      ensures level > 4 ==> mem == old(mem) && free == old(free)
      ensures level <= 4 ==> mem == old(mem) - PagesUnder(tables, path) && free == old(free) + PagesUnder(tables, path)
      decreases 5 - level
    {
      hide TreeSound, Present, User, PageBase;
      if level > 4 {
        return;
      }
      var index: nat := 0;
      assert PagesBelow(tables, path, 0) == {};
      while index < ENTRIES
        invariant index <= ENTRIES
        invariant mem == old(mem) - PagesBelow(tables, path, index)
        invariant free == old(free) + PagesBelow(tables, path, index) && free !! mem.Keys
      {
        BelowApart(mem0, tables, ptr, kernelEntry, path, index);
        NextBelow(mem0, tables, ptr, kernelEntry, path, index);
        ChildEntry(mem0, tables, ptr, kernelEntry, path, index);
        var entry := mem[pt][index];
        if Present(entry) && User(entry) {
          Teardown(level + 1, PageBase(entry), path + [index], mem0, kernelEntry);
        }
        index := index + 1;
      }
      BelowApart(mem0, tables, ptr, kernelEntry, path, index);
      PgFree(pt);
    }

    /** `unprotect`: gives back exactly the pages that `protect` and `map` took for the tables. */
    method Unprotect()
      requires Ready()
      modifies this`mem, this`free, this`tables
      ensures mem == old(mem) - old(tables).Values && free == old(free) + old(tables).Values
      ensures MachineOk() && OthersKept() && tables == map[]
      ensures forall page | page in old(mem) && page !in old(tables).Values ::
                page in mem && mem[page] == old(mem)[page]
    {
      hide TreeSound, Present, User, PageBase;
      ghost var kernelEntry := mem[kpt][KERNEL_INDEX];
      RootReached(0);
      RootPresent();
      AllUnderRoot(mem, tables, ptr, kernelEntry);
      TablesInUse();
      if Present(ptr) && User(ptr) {
        Teardown(1, PageBase(ptr), [], mem, kernelEntry);
      }
      tables := map[];
    }

    lemma RootPresent()
      requires Valid()
      ensures Present(ptr) && User(ptr)
    {
      hide TreeSound, Present, User, Writable, PageBase, Or;
      KernelEntry(mem, tables, ptr, mem[kpt][KERNEL_INDEX]);
      EntryBits(tables[[]], PTE_P + PTE_U);
    }
  }
}
