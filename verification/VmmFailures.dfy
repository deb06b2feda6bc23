/** A state in which a device mapping of src/memory/vmm.c fails and yet changes translations. */
module VmmFailures {
  import opened Bytes
  import opened Bitmap
  import opened Paging
  import opened TableNeeds
  import opened PageRanges
  import opened Vmm

  /** Four frames of zeros: an empty root table and three frames that are free. */
  function Blank(): (mem: Memory)
    ensures |mem| == 4 && forall f, i :: 0 <= f < 4 && 0 <= i < 512 ==> mem[f][i] == 0
  {
    seq(4, _ => seq(512, _ => 0))
  }

  /** No address has any of its tables. */
  ghost predicate NoTables(mem: Memory, root: nat) {
    forall v: u64 :: MissingPaths(mem, root, v) == LastPaths(v, 3) && MappedTo(mem, root, v) == None
  }

  lemma BlankHasNone(mem: Memory)
    requires mem == Blank()
    ensures NoTables(mem, 0) && Tree(mem, 0, map[0 := []])
  {
    forall v: u64
      ensures MissingPaths(mem, 0, v) == LastPaths(v, 3) && MappedTo(mem, 0, v) == None
    {
      assert !Present(mem[0][Index(v, 0)]);
    }
  }

  /** The page 512 pages on has its entry in another leaf table. */
  lemma OtherTable(v: u64, w: u64)
    requires v == MMIO_VIRTUAL_BASE && w == PageAt(v, 512)
    ensures Path(w, 3) != Path(v, 3)
  {
    assert w == v + 0x20_0000;
    PathOfThree(v);
    PathOfThree(w);
    assert Index(v, 2) == 0 && Index(w, 2) == 1;
  }

  /** So three tables suffice for the first page, and not for the first 513. */
  lemma NoTablesNeeds(mem: Memory, root: nat, v: u64, n: nat)
    requires NoTables(mem, root) && v == MMIO_VIRTUAL_BASE && n == 513
    ensures |Needed(mem, root, v, 1)| == 3 && |Needed(mem, root, v, n)| > 3
  {
    var w, few, more := PageAt(v, n - 1), Needed(mem, root, v, 1), Needed(mem, root, v, n);
    assert few == LastPaths(v, 3) by {
      assert PageAt(v, 0) == v && few == Needed(mem, root, v, 0) + LastPaths(v, 3);
    }
    LastPathsCount(v, 3);
    NeededGrows(mem, root, v, 1, n);
    assert more == Needed(mem, root, v, n - 1) + LastPaths(w, 3);
    LastPathsHave(w, 3, Path(w, 3));
    LastPathsHave(v, 3, Path(w, 3));
    OtherTable(v, w);
    Smaller(few + {Path(w, 3)}, more);
  }

  lemma PrefixFits(mem: Memory, root: nat, v: u64, n: nat, count: nat)
    requires NoTables(mem, root) && v == MMIO_VIRTUAL_BASE && n == 513 && FitsUpTo(mem, root, v, n, 3, count)
    ensures 1 <= count < n
  {
    NoTablesNeeds(mem, root, v, n);
  }

  /** A manager of physical memory with three free frames, and an empty root table. */
  method ThreeFrames() returns (m: VirtualMemory)
    ensures fresh(m) && m.Valid() && m.mem == Blank() && m.Root() == 0 && m.FreeFrames() == 3
    ensures m.hhdmOffset != 0 && m.nextMmio == MMIO_VIRTUAL_BASE
    ensures fresh(m.phys) && fresh(m.phys.bitmap) && NoTables(m.mem, 0)
  {
    var storage := new bv8[4096];
    var phys := new BitmapManager(storage);
    var ok := phys.Init(storage, PAGE_SIZE, 3 * PAGE_SIZE);
    BlankHasNone(Blank());
    m := new VirtualMemory(phys, Blank(), 0, 0xFFFF_8000_0000_0000, map[0 := []]);
  }

  /** There a device of 513 pages is not mapped, but a part of it is, and stays. */
  method PrefixStays() returns (m: VirtualMemory, r: Option<u64>, ghost count: nat)
    ensures m.Valid() && r == None && 1 <= count < 513
    ensures !SameFrames(Blank(), m.mem, m.Root())
  {
    m := ThreeFrames();
    ghost var start := m.mem;
    var size := 513 * PAGE_SIZE;
    ghost var pages := PagesOf(size);
    assert pages == 513;
    r, count := m.MapMmio(0, size);
    PrefixFits(start, 0, MMIO_VIRTUAL_BASE, pages, count);
    NothingMapped(start, m.mem, 0, MMIO_VIRTUAL_BASE, 0, count);
  }
}
