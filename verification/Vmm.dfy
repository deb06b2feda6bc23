/** The virtual memory manager of src/memory/vmm.c on the block allocator of src/memory/bitmap_mem.c. */
module Vmm {
  import opened Bytes
  import opened Bitmap
  import opened Paging
  import opened TableNeeds
  import opened TableLedger
  import opened PageRanges

  const PAGE_PRESENT := 1
  const PAGE_WRITABLE := 2
  const PAGE_PWT := 8
  const PAGE_PCD := 16

  /** Present, and the writable, user, write-through and cache-disable bits of flags (src/memory/vmm.c:130). */
  function PageFlags(flags: u64): (r: nat)
    ensures r < 32 && r % 2 == 1
  {
    PAGE_PRESENT + flags / 2 % 16 * 2
  }

  class VirtualMemory {
    /** Physical memory, frame by frame: a direct-map address is an index here. */
    var mem: Memory
    var cr3: u64
    var hhdmOffset: u64
    var nextMmio: u64
    const phys: BitmapManager

    /** Where in the tree every table frame sits. */
    ghost var place: map<nat, seq<nat>>

    /** vmm_init (src/memory/vmm.c:31): the boot loader's tables, given by cr3, are taken over as they are. */
    constructor (phys: BitmapManager, mem: Memory, cr3: u64, hhdmOffset: u64, ghost place: map<nat, seq<nat>>)
      requires phys.Valid() && phys.memoryBase % PAGE_SIZE == 0 && phys.memoryBase > 0
      requires phys.memoryBase / PAGE_SIZE + phys.totalBlocks <= |mem| <= 0x10_0000_0000_0000
      requires Tree(mem, FrameOf(cr3), place)
      requires Reserved(place, phys.memoryBase / PAGE_SIZE, phys.used)
      ensures Valid() && this.phys == phys && this.mem == mem && this.cr3 == cr3 && this.place == place
      ensures this.hhdmOffset == hhdmOffset && nextMmio == MMIO_VIRTUAL_BASE == 0xFFFF_FFFF_C000_0000
    {
      this.phys, this.mem, this.cr3, this.hhdmOffset, this.place := phys, mem, cr3, hhdmOffset, place;
      nextMmio := MMIO_VIRTUAL_BASE;
    }

    ghost function Root(): nat
      reads this
    {
      FrameOf(cr3)
    }

    /** The managed blocks are page frames of memory, none at address 0. */
    ghost predicate Managed()
      reads this, phys, phys.bitmap
    {
      && phys.Valid()
      && phys.memoryBase % PAGE_SIZE == 0 && phys.memoryBase > 0
      && phys.memoryBase / PAGE_SIZE + phys.totalBlocks <= |mem| <= 0x10_0000_0000_0000
    }

    ghost function Base(): nat
      reads this, phys
    {
      phys.memoryBase / PAGE_SIZE
    }

    /** The tables form an unshared tree, and no table frame is free. */
    ghost predicate Valid()
      reads this, phys, phys.bitmap
    {
      && Managed()
      && Tree(mem, Root(), place)
      && Reserved(place, Base(), phys.used)
      && nextMmio % PAGE_SIZE == 0
    }

    /** The flat view: the physical address of v, if it is mapped. */
    ghost function At(v: u64): Option<nat>
      reads this
    {
      Translate(mem, Root(), v)
    }

    ghost function Missing(v: u64): nat
      reads this
    {
      MissingFrom(mem, Root(), v, 0)
    }

    ghost function Lacks(v: u64): set<seq<nat>>
      reads this
    {
      MissingPaths(mem, Root(), v)
    }

    ghost function FreeFrames(): nat
      reads phys
    {
      FreeCount(phys.used)
    }

    /** Whether v can be mapped, and the tables created in any case. */
    ghost function Attempt(v: u64): (bool, set<seq<nat>>)
      reads this, phys
    {
      Page(mem, Root(), {}, FreeFrames(), v)
    }

    /** Exactly the given tables have been created, out of free frames. */
    ghost predicate Took(start: Memory, free: nat, made: set<seq<nat>>)
      reads this, phys
    {
      Made(start, mem, Root(), made) && FreeFrames() == free - |made|
    }

    /** physical_alloc_page (src/memory/pmm.c:85): the address of a frame; 0 if there is none. */
    method AllocPage() returns (page: nat)
      requires Managed()
      modifies phys`used, phys`freeBlocks, phys.bitmap
      ensures Managed()
      ensures page == 0 <==> FreeCount(old(phys.used)) == 0
      ensures page == 0 ==> phys.used == old(phys.used)
      ensures page != 0 ==>
                var b := page / PAGE_SIZE - Base();
                && page % PAGE_SIZE == 0 && page / PAGE_SIZE < |mem| && 0 <= b < |old(phys.used)|
                && !old(phys.used)[b] && phys.used == old(phys.used)[b := true]
                && FreeCount(phys.used) == FreeCount(old(phys.used)) - 1
    {
      var r := phys.AllocBlock();
      if r == None {
        return 0;
      }
      ghost var b: nat :| IsFirstRun(old(phys.used), b, 1) && r == Some(phys.Address(b)) &&
          phys.used == old(phys.used)[b := true];
      FreeUpdate(old(phys.used), |old(phys.used)|, b, true);
      page := r.value;
      assert page / PAGE_SIZE == Base() + b;
    }

    /** Walking to, or creating, the table below t (src/memory/vmm.c:81-95, and again for the next two levels). */
    method EnsureTable(t: nat, index: nat, ghost v: u64, ghost n: nat) returns (child: Option<nat>)
      requires Valid() && n < 3 && index == Index(v, n) && Reaches(mem, Root(), v, 0, n, t)
      modifies this`mem, this`place, phys`used, phys`freeBlocks, phys.bitmap
      ensures Valid() && |mem| == |old(mem)|
      ensures child.Some? ==> Reaches(mem, Root(), v, 0, n + 1, child.value)
      ensures t < |old(mem)| && (child == None <==> !Present(old(mem)[t][index]) && old(FreeFrames()) == 0)
      ensures child == None ==> FreeFrames() == 0 < Missing(v)
      ensures Grown(old(mem), mem, Root(), v) && old(FreeFrames()) - FreeFrames() == old(Missing(v)) - Missing(v)
    {
      WalkThrough(mem, Root(), place, v, t, Root(), 0, n);
      GrownSame(mem, Root(), v);
      var e := mem[t][index];
      if Present(e) {
        ReachesNext(mem, Root(), v, 0, n, t);
        return Some(FrameOf(e));
      }
      MissingThrough(mem, Root(), v, 0, n, t);
      var page := AllocPage();
      if page == 0 {
        return None;
      }
      HangTable(t, index, page, old(phys.used), v, n);
      child := Some(page / PAGE_SIZE);
    }

    /** Clearing a new frame and entering it in its parent (src/memory/vmm.c:92-94). */
    method HangTable(t: nat, index: nat, page: nat, ghost used: seq<bool>, ghost v: u64, ghost n: nat)
      requires Managed() && nextMmio % PAGE_SIZE == 0 && n < 3 && index == Index(v, n)
      requires Tree(mem, Root(), place) && Reaches(mem, Root(), v, 0, n, t) && t in place && place[t] == Path(v, n)
      requires !Present(mem[t][index]) && page % PAGE_SIZE == 0 && page / PAGE_SIZE < |mem|
      requires Reserved(place, Base(), used)
      requires var b := page / PAGE_SIZE - Base(); 0 <= b < |used| && !used[b] && phys.used == used[b := true]
      modifies this`mem, this`place
      ensures Valid() && |mem| == |old(mem)|
      ensures Grown(old(mem), mem, Root(), v)
      ensures Reaches(mem, Root(), v, 0, n + 1, page / PAGE_SIZE)
      ensures Missing(v) == old(Missing(v)) - 1
    {
      ghost var place2 := place[page / PAGE_SIZE := place[t] + [index]];
      assert Reserved(place2, Base(), phys.used) by {
        ReservedAfter(place, Base(), used, page / PAGE_SIZE - Base(), place[t] + [index]);
      }
      var entry := PageEntry(page, PAGE_PRESENT + PAGE_WRITABLE);
      HangEffect(mem, Root(), place, t, page / PAGE_SIZE, entry, v, n);
      mem := AddTable(mem, t, index, page / PAGE_SIZE, entry);
      place := place2;
    }

    /** The first two levels of the walk (src/memory/vmm.c:81-102, 204-226). */
    method EnsureDirectory(v: u64) returns (pd: Option<nat>)
      requires Valid()
      modifies this`mem, this`place, phys`used, phys`freeBlocks, phys.bitmap
      ensures Valid() && |mem| == |old(mem)|
      ensures pd.Some? ==> Reaches(mem, Root(), v, 0, 2, pd.value)
      ensures pd == None ==> FreeFrames() == 0 < Missing(v)
      ensures Grown(old(mem), mem, Root(), v) && old(FreeFrames()) - FreeFrames() == old(Missing(v)) - Missing(v)
    {
      var pdp := EnsureTable(FrameOf(cr3), Index(v, 0), v, 0);
      if pdp == None {
        return None;
      }
      ghost var mem1 := mem;
      pd := EnsureTable(pdp.value, Index(v, 1), v, 1);
      GrownBoth(old(mem), mem1, mem, Root(), v);
    }

    /** The walk of vmm_map_page and of vmm_map_mmio, creating what is missing (src/memory/vmm.c:81-110, 204-236). */
    method EnsureTables(v: u64) returns (table: Option<nat>)
      requires Valid()
      modifies this`mem, this`place, phys`used, phys`freeBlocks, phys.bitmap
      ensures Valid() && |mem| == |old(mem)|
      ensures table.Some? ==> Reaches(mem, Root(), v, 0, 3, table.value) && Missing(v) == 0
      ensures table == None ==> FreeFrames() == 0 < Missing(v)
      ensures Grown(old(mem), mem, Root(), v) && old(FreeFrames()) - FreeFrames() == old(Missing(v)) - Missing(v)
    {
      var pd := EnsureDirectory(v);
      if pd == None {
        return None;
      }
      ghost var mem2 := mem;
      table := EnsureTable(pd.value, Index(v, 2), v, 2);
      GrownBoth(old(mem), mem2, mem, Root(), v);
      if table.Some? {
        MissingThrough(mem, Root(), v, 0, 3, table.value);
      }
    }

    /** The same with the write of the leaf entry (src/memory/vmm.c:81-131, 204-257). */
    method MapEntry(paddr: u64, v: u64, flags: nat) returns (ok: bool)
      requires Valid() && flags < PAGE_SIZE && flags % 2 == 1
      modifies this`mem, this`place, phys`used, phys`freeBlocks, phys.bitmap
      ensures Valid() && |mem| == |old(mem)|
      ensures ok <==> old(Missing(v) <= FreeFrames())
      ensures !ok ==> FreeFrames() == 0
      ensures ok == old(Attempt(v)).0 && Took(old(mem), old(FreeFrames()), old(Attempt(v)).1)
      ensures ok ==> Made(old(mem), mem, Root(), old(Lacks(v))) && FreeFrames() == old(FreeFrames()) - old(Missing(v))
      ensures TablesKept(old(mem), mem, Root())
      ensures if ok then Mapped(old(mem), mem, Root(), v, Some(PageEntry(paddr, flags)))
              else SameWalks(old(mem), mem, Root())
    {
      var table := EnsureTables(v);
      PageMade(old(mem), mem, Root(), old(FreeFrames()), FreeFrames(), v, table.Some?);
      if table == None {
        return false;
      }
      ghost var mem1 := mem;
      WriteLeaf(table.value, v, PageEntry(paddr, flags));
      TablesKeptBoth(old(mem), mem1, mem, Root());
      MadeAll(old(mem), mem1, Root(), v);
      MadeBoth(old(mem), mem1, mem, Root(), old(Lacks(v)), {});
      MadeBoth(old(mem), mem1, mem, Root(), old(Attempt(v)).1, {});
      assert old(Lacks(v)) + {} == old(Lacks(v)) && old(Attempt(v)).1 + {} == old(Attempt(v)).1;
      ok := true;
    }

    /** A write to the leaf entry of v. */
    method WriteLeaf(t: nat, v: u64, e: u64)
      requires Valid() && Reaches(mem, Root(), v, 0, 3, t)
      modifies this`mem
      ensures Valid() && |mem| == |old(mem)|
      ensures Mapped(old(mem), mem, Root(), v, if Present(e) then Some(e) else None)
      ensures Made(old(mem), mem, Root(), {}) && TablesKept(old(mem), mem, Root())
    {
      LeafWrite(mem, Root(), place, v, t, e, v);
      WalkThrough(mem, Root(), place, v, t, Root(), 0, 3);
      LeafMade(mem, Root(), place, t, Index(v, 3), e);
      LeafKeepsTables(mem, Root(), place, t, Index(v, 3), e);
      forall w: u64
        ensures Leaf(Write(mem, t, Index(v, 3), e), Root(), w) ==
                if PageNumber(w) != PageNumber(v) then Leaf(mem, Root(), w)
                else if Present(e) then Some(e) else None
      {
        LeafWrite(mem, Root(), place, v, t, e, w);
      }
      mem := Write(mem, t, Index(v, 3), e);
    }

    /** vmm_map_page (src/memory/vmm.c:62): it fails exactly without a direct map or without enough free frames for the
        tables missing; then no leaf entry changes. Otherwise exactly that of the page of v does: for an aligned address
        it is the address, present, with the writable, user, write-through and cache-disable bits of flags. */
    method MapPage(paddr: u64, v: u64, flags: u64) returns (r: Option<u64>)
      requires Valid()
      modifies this`mem, this`place, phys`used, phys`freeBlocks, phys.bitmap
      ensures Valid() && |mem| == |old(mem)|
      ensures r == if hhdmOffset != 0 && old(Missing(v) <= FreeFrames()) then Some(v) else None
      ensures r == None && hhdmOffset != 0 ==> FreeFrames() == 0
      ensures hhdmOffset != 0 ==> r.Some? == old(Attempt(v)).0 && Took(old(mem), old(FreeFrames()), old(Attempt(v)).1)
      ensures r.Some? ==> Made(old(mem), mem, Root(), old(Lacks(v)))
      ensures r.Some? ==> FreeFrames() == old(FreeFrames()) - old(Missing(v))
      ensures TablesKept(old(mem), mem, Root())
      ensures if r.Some? then Mapped(old(mem), mem, Root(), v, Some(PageEntry(paddr, PageFlags(flags))))
              else SameWalks(old(mem), mem, Root())
      ensures r.Some? && paddr % 4096 == 0 ==> Leaf(mem, Root(), v) == Some(paddr + 1 + 2 * (flags / 2 % 16))
      ensures r.Some? ==> forall w: u64 :: PageNumber(w) != PageNumber(v) ==>
                Leaf(mem, Root(), w) == Leaf(old(mem), Root(), w)
    {
      TablesKeptSame(mem, Root());
      if hhdmOffset == 0 {
        return None;
      }
      var ok := MapEntry(paddr, v, PageFlags(flags));
      r := if ok then Some(v) else None;
    }

    /** The read-only walk to the bottom table of v, as vmm_unmap_page (src/memory/vmm.c:283-300) and
        vmm_get_physical_addr (src/memory/vmm.c:328-345) do it. */
    method FindTable(v: u64) returns (t: Option<nat>)
      requires Valid()
      ensures t.Some? ==> Reaches(mem, Root(), v, 0, 3, t.value)
      ensures t == None ==> Mapped(mem, mem, Root(), v, None)
    {
      var pml4 := FrameOf(cr3);
      var e := mem[pml4][Index(v, 0)];
      if !Present(e) {
        NotMapped(mem, Root(), place, v, 0, pml4);
        return None;
      }
      var pdp := NextTable(pml4, e, v, 0);
      e := mem[pdp][Index(v, 1)];
      if !Present(e) {
        NotMapped(mem, Root(), place, v, 1, pdp);
        return None;
      }
      var pd := NextTable(pdp, e, v, 1);
      e := mem[pd][Index(v, 2)];
      if !Present(e) {
        NotMapped(mem, Root(), place, v, 2, pd);
        return None;
      }
      var pt := NextTable(pd, e, v, 2);
      t := Some(pt);
    }

    /** The table an entry points to. */
    method NextTable(t: nat, e: u64, ghost v: u64, ghost n: nat) returns (next: nat)
      requires Valid() && n < 3 && Reaches(mem, Root(), v, 0, n, t) && t < |mem| && e == mem[t][Index(v, n)] &&
               Present(e)
      ensures next == FrameOf(e) < |mem| && Reaches(mem, Root(), v, 0, n + 1, next)
    {
      next := FrameOf(e);
      ReachesNext(mem, Root(), v, 0, n, t);
      WalkThrough(mem, Root(), place, v, next, Root(), 0, n + 1);
    }

    /** vmm_unmap_page (src/memory/vmm.c:273): exactly the page of v is not mapped any more. */
    method UnmapPage(v: u64)
      requires Valid()
      modifies this`mem
      ensures Valid() && |mem| == |old(mem)|
      ensures if hhdmOffset != 0 then Mapped(old(mem), mem, Root(), v, None) else mem == old(mem)
      ensures Made(old(mem), mem, Root(), {}) && TablesKept(old(mem), mem, Root())
    {
      MadeNone(mem, Root());
      TablesKeptSame(mem, Root());
      if hhdmOffset == 0 {
        return;
      }
      var t := FindTable(v);
      if t == None {
        return;
      }
      WriteLeaf(t.value, v, 0);
    }

    /** vmm_get_physical_addr (src/memory/vmm.c:318). */
    method GetPhysicalAddr(v: u64) returns (r: nat)
      requires Valid()
      ensures r == if hhdmOffset == 0 || At(v) == None then 0 else At(v).value
    {
      if hhdmOffset == 0 {
        return 0;
      }
      var t := FindTable(v);
      if t == None {
        return 0;
      }
      WalkThrough(mem, Root(), place, v, t.value, Root(), 0, 3);
      var e := mem[t.value][Index(v, 3)];
      if !Present(e) {
        return 0;
      }
      r := FrameOf(e) * PAGE_SIZE + v % PAGE_SIZE;
    }

    /** vmm_map_mmio (src/memory/vmm.c:166): the pages from next_mmio_vaddr on are mapped in order, as many as there are
        free frames for the tables they lack, and an address is returned exactly if those are all; the address range is
        used up in any case. */
    method MapMmio(paddr: u64, size: u64) returns (r: Option<u64>, ghost count: nat)
      requires Valid()
      modifies this`mem, this`place, this`nextMmio, phys`used, phys`freeBlocks, phys.bitmap
      ensures Valid() && |mem| == |old(mem)|
      ensures hhdmOffset == 0 ==> r == None && count == 0 && nextMmio == old(nextMmio) && mem == old(mem)
      ensures hhdmOffset != 0 ==> nextMmio == PageAt(old(nextMmio), PagesOf(size))
      ensures hhdmOffset != 0 ==> FitsUpTo(old(mem), Root(), old(nextMmio), PagesOf(size), old(FreeFrames()), count)
      ensures hhdmOffset != 0 ==> r == if count == PagesOf(size) then Some(old(nextMmio)) else None
      ensures hhdmOffset != 0 && r == None ==> FreeFrames() == 0
      ensures hhdmOffset != 0 ==>
                var made := Range(old(mem), Root(), {}, old(FreeFrames()), old(nextMmio), PagesOf(size));
                count == made.0 && Took(old(mem), old(FreeFrames()), made.1)
      ensures r.Some? ==> PagesMapped(old(mem), old(FreeFrames()), old(nextMmio), paddr, PagesOf(size))
      ensures RangeMapped(old(mem), mem, Root(), old(nextMmio), paddr, count) && TablesKept(old(mem), mem, Root())
    {
      count := 0;
      TablesKeptSame(mem, Root());
      if hhdmOffset == 0 {
        return None, count;
      }
      var v := nextMmio;
      var pages := PagesOf(size);
      ghost var next := PageAt(nextMmio, pages);
      TakeAddresses(pages);
      var ok;
      ok, count := MmioRange(v, pages, paddr);
      assert nextMmio == next;
      r := if ok then Some(v) else None;
    }

    /** The mapping proper: how many pages fit, and which tables there are then. */
    method MmioRange(v: u64, pages: nat, paddr: u64) returns (ok: bool, ghost count: nat)
      requires Valid()
      modifies this`mem, this`place, phys`used, phys`freeBlocks, phys.bitmap
      ensures Valid() && |mem| == |old(mem)| && (ok <==> count == pages) && (!ok ==> FreeFrames() == 0)
      ensures FitsUpTo(old(mem), Root(), v, pages, old(FreeFrames()), count)
      ensures var made := Range(old(mem), Root(), {}, old(FreeFrames()), v, pages);
              count == made.0 && Took(old(mem), old(FreeFrames()), made.1)
      ensures ok ==> PagesMapped(old(mem), old(FreeFrames()), v, paddr, pages)
      ensures RangeMapped(old(mem), mem, Root(), v, paddr, count) && TablesKept(old(mem), mem, Root())
    {
      ghost var start, free := mem, FreeFrames();
      ok, count := MmioPages(v, pages, paddr);
      LastFit(start, Root(), v, count, pages, free);
      RangeMade(start, Root(), free, v, count, pages);
    }

    /** The range is taken from the front of the window (src/memory/vmm.c:178). */
    method TakeAddresses(pages: nat)
      requires Valid()
      modifies this`nextMmio
      ensures Valid() && nextMmio == PageAt(old(nextMmio), pages)
    {
      NextAligned(nextMmio, pages);
      nextMmio := Wrap(nextMmio + pages * PAGE_SIZE);
    }

    lemma NoPages(v: u64, p: u64)
      ensures PagesMapped(mem, FreeFrames(), v, p, 0)
    {
      MadeNone(mem, Root());
      TablesKeptSame(mem, Root());
    }

    /** The loop of vmm_map_mmio (src/memory/vmm.c:190-261): it stops at the first page that does not fit. */
    method MmioPages(v: u64, pages: nat, paddr: u64) returns (ok: bool, ghost count: nat)
      requires Valid()
      modifies this`mem, this`place, phys`used, phys`freeBlocks, phys.bitmap
      ensures Valid() && |mem| == |old(mem)| && count <= pages && (ok <==> count == pages)
      ensures ok ==> PagesMapped(old(mem), old(FreeFrames()), v, paddr, pages)
      ensures !ok ==> PagesStopped(old(mem), old(FreeFrames()), v, paddr, count)
    {
      ghost var start, free := mem, FreeFrames();
      NoPages(v, paddr);
      var i := 0;
      while i < pages
        invariant 0 <= i <= pages
        invariant Valid() && |mem| == |start| && PagesMapped(start, free, v, paddr, i)
      {
        ok := MmioPage(i, v, paddr, start, free);
        if !ok {
          return false, i;
        }
        i := i + 1;
      }
      ok, count := true, i;
    }

    /** vmm_unmap (src/memory/vmm.c:309). */
    method Unmap(v: u64, size: u64)
      requires Valid()
      modifies this`mem
      ensures Valid() && |mem| == |old(mem)|
      ensures hhdmOffset == 0 ==> mem == old(mem)
      ensures hhdmOffset != 0 ==> RangeUnmapped(old(mem), mem, Root(), UnmapStart(v), UnmapCount(v, size))
      ensures hhdmOffset != 0 ==> TablesKept(old(mem), mem, Root())
    {
      TablesKeptSame(mem, Root());
      var start := v - v % PAGE_SIZE;
      var end := Wrap(Wrap(v + size) + PAGE_SIZE - 1);
      end := end - end % PAGE_SIZE;
      UnmapEnd(v, size);
      var a := start;
      ghost var i := 0;
      while a < end
        invariant 0 <= i <= UnmapCount(v, size) && a == start + i * PAGE_SIZE
        invariant Valid() && |mem| == |old(mem)|
        invariant UnmappedSoFar(old(mem), start, i)
      {
        UnmapNext(a, old(mem), start, i);
        a := a + PAGE_SIZE;
        i := i + 1;
      }
    }

    ghost predicate UnmappedSoFar(start: Memory, v: u64, n: nat)
      reads this
    {
      if hhdmOffset == 0 then mem == start
      else RangeUnmapped(start, mem, Root(), v, n) && TablesKept(start, mem, Root())
    }

    /** One turn of the loop of vmm_unmap. */
    method UnmapNext(a: u64, ghost start: Memory, ghost v: u64, ghost n: nat)
      requires Valid() && a == PageAt(v, n) && UnmappedSoFar(start, v, n)
      modifies this`mem
      ensures Valid() && |mem| == |old(mem)| && UnmappedSoFar(start, v, n + 1)
    {
      UnmapPage(a);
      if hhdmOffset != 0 {
        TablesKeptBoth(start, old(mem), mem, Root());
        RangeUnmappedNext(start, old(mem), mem, Root(), v, n);
      }
    }

    /** The first n pages from v on have been mapped to those from p on, and exactly the tables they lacked have been
        created, since memory was start and the given number of frames was free. */
    ghost predicate PagesMapped(start: Memory, free: nat, v: u64, p: u64, n: nat)
      reads this, phys
    {
      && RangeMapped(start, mem, Root(), v, p, n) && TablesKept(start, mem, Root())
      && Made(start, mem, Root(), Needed(start, Root(), v, n))
      && FreeFrames() == free - |Needed(start, Root(), v, n)|
    }

    /** The first n pages have been mapped, and the next one has used up the frames without getting all its tables. */
    ghost predicate PagesStopped(start: Memory, free: nat, v: u64, p: u64, n: nat)
      reads this, phys
    {
      && RangeMapped(start, mem, Root(), v, p, n) && TablesKept(start, mem, Root()) && FreeFrames() == 0
      && |Needed(start, Root(), v, n)| <= free < |Needed(start, Root(), v, n + 1)|
      && Took(start, free, Page(start, Root(), Needed(start, Root(), v, n), free, PageAt(v, n)).1)
    }

    /** One turn of the loop of vmm_map_mmio, which began with the given memory and number of free frames. */
    method MmioPage(i: nat, v: u64, paddr: u64, ghost start: Memory, ghost free: nat) returns (ok: bool)
      requires Valid() && PagesMapped(start, free, v, paddr, i)
      modifies this`mem, this`place, phys`used, phys`freeBlocks, phys.bitmap
      ensures Valid() && |mem| == |old(mem)|
      ensures ok <==> |Needed(start, Root(), v, i + 1)| <= free
      ensures ok ==> PagesMapped(start, free, v, paddr, i + 1)
      ensures !ok ==> PagesStopped(start, free, v, paddr, i)
    {
      NextNeed(start, mem, Root(), v, i);
      ok := MapEntry(Wrap(paddr + i * PAGE_SIZE), Wrap(v + i * PAGE_SIZE),
                     PAGE_PRESENT + PAGE_WRITABLE + PAGE_PCD + PAGE_PWT);
      TablesKeptBoth(start, old(mem), mem, Root());
      if ok {
        RangeNext(start, old(mem), mem, Root(), v, paddr, i);
        MadeBoth(start, old(mem), mem, Root(), Needed(start, Root(), v, i), old(Lacks(PageAt(v, i))));
      } else {
        RangeSame(start, old(mem), mem, Root(), v, paddr, i);
        PageMadeNext(start, old(mem), mem, Root(), Needed(start, Root(), v, i), free, FreeFrames(), PageAt(v, i));
      }
    }
  }
}
