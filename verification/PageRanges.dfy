/** Mapping and unmapping ranges of pages, as values: what the loops of src/memory/vmm.c add up to. */
module PageRanges {
  import opened Bytes
  import opened Paging
  import opened TableNeeds

  const MMIO_VIRTUAL_BASE: u64 := 0xFFFF_FFFF_C000_0000

  function Wrap(n: int): u64 {
    n % TWO_TO_THE_64
  }

  /** No frame in place is a free block of an allocator that manages the frames from base on. */
  ghost predicate Reserved(place: map<nat, seq<nat>>, base: nat, used: seq<bool>) {
    forall f :: f in place && base <= f < base + |used| ==> used[f - base]
  }

  lemma ReservedAfter(place: map<nat, seq<nat>>, base: nat, used: seq<bool>, b: nat, path: seq<nat>)
    requires Reserved(place, base, used) && b < |used| && !used[b]
    ensures base + b !in place
    ensures Reserved(place[base + b := path], base, used[b := true])
    ensures Reserved(place, base, used[b := true])
  {
  }

  /** Of the first pages from v on, n can be given the tables they lack exactly if n is at most count. */
  ghost predicate FitsUpTo(mem: Memory, root: nat, v: u64, pages: nat, free: nat, count: nat) {
    count <= pages && forall n :: 0 <= n <= pages ==> (|Needed(mem, root, v, n)| <= free <==> n <= count)
  }

  /** As soon as one more page does not fit, no larger number does. */
  lemma LastFit(mem: Memory, root: nat, v: u64, count: nat, pages: nat, free: nat)
    requires count <= pages && |Needed(mem, root, v, count)| <= free
    requires count < pages ==> |Needed(mem, root, v, count + 1)| > free
    ensures FitsUpTo(mem, root, v, pages, free, count)
  {
    forall n | 0 <= n <= pages
      ensures |Needed(mem, root, v, n)| <= free <==> n <= count
    {
      if n <= count {
        NeededGrows(mem, root, v, n, count);
      } else {
        var next := count + 1;
        NeededGrows(mem, root, v, next, n);
      }
    }
  }

  /** A device mapping that began at an unmapped page changes no translation exactly if it mapped no page. */
  lemma {:induction false} NothingMapped(mem: Memory, mem2: Memory, root: nat, v: u64, p: u64, n: nat)
    requires RangeMapped(mem, mem2, root, v, p, n) && MappedTo(mem, root, v) == None
    ensures SameFrames(mem, mem2, root) <==> n == 0
  {
    if n > 0 {
      FirstPageMapped(mem, root, v, p, n);
      assert Leaf(mem2, root, v) == RangeLeaf(mem, root, v, p, n, v);
      assert MappedTo(mem2, root, v) != MappedTo(mem, root, v);
    } else {
      assert forall w: u64 :: Leaf(mem2, root, w) == RangeLeaf(mem, root, v, p, n, w);
    }
  }

  lemma {:induction false} FirstPageMapped(mem: Memory, root: nat, v: u64, p: u64, n: nat)
    requires n > 0
    ensures RangeLeaf(mem, root, v, p, n, v).Some?
  {
    if n > 1 {
      FirstPageMapped(mem, root, v, p, n - 1);
    } else {
      assert PageAt(v, 0) == v;
    }
  }

  /** Tables on the way of v have been created, and no other entry has changed. */
  ghost predicate Grown(mem: Memory, mem2: Memory, root: nat, v: u64) {
    SameWalks(mem, mem2, root) && TablesKept(mem, mem2, root) && MadeFor(mem, mem2, root, v)
  }

  lemma GrownSame(mem: Memory, root: nat, v: u64)
    ensures Grown(mem, mem, root, v)
  {
    MadeNone(mem, root);
    MadeForSame(mem, mem, root, v);
    TablesKeptSame(mem, root);
  }

  lemma GrownBoth(mem: Memory, mem1: Memory, mem2: Memory, root: nat, v: u64)
    requires Grown(mem, mem1, root, v) && Grown(mem1, mem2, root, v)
    ensures Grown(mem, mem2, root, v)
  {
    MadeForBoth(mem, mem1, mem2, root, v);
    TablesKeptBoth(mem, mem1, mem2, root);
    forall w: u64
      ensures Leaf(mem2, root, w) == Leaf(mem, root, w)
    {
      assert Leaf(mem1, root, w) == Leaf(mem, root, w);
    }
  }

  lemma HangEffect(mem: Memory, root: nat, place: map<nat, seq<nat>>, t: nat, c: nat, e: u64, v: u64, n: nat)
    requires n < 3 && Reaches(mem, root, v, 0, n, t) && t in place && CanAdd(mem, root, place, t, Index(v, n), c, e)
    requires Present(e) && e % 4096 == 3
    ensures var mem2 := AddTable(mem, t, Index(v, n), c, e);
            && Tree(mem2, root, place[c := place[t] + [Index(v, n)]])
            && Grown(mem, mem2, root, v) && Reaches(mem2, root, v, 0, n + 1, c)
            && MissingFrom(mem2, root, v, 0) == MissingFrom(mem, root, v, 0) - 1
  {
    AddTableEffect(mem, root, place, t, c, e, v, n);
    AddTableMade(mem, root, place, t, c, e, v, n);
    AddTableKeeps(mem, root, place, t, Index(v, n), c, e);
  }

  /** size in pages, rounded up in 64-bit arithmetic (src/memory/vmm.c:177). */
  function PagesOf(size: u64): nat {
    Wrap(size + PAGE_SIZE - 1) / PAGE_SIZE
  }

  /** The pages are as many as cover size bytes; a size that is less than a page short of 2^64 wraps around to none. */
  lemma PagesOfExactly(size: u64)
    ensures size <= TWO_TO_THE_64 - 4096 ==> 4096 * PagesOf(size) >= size > 4096 * PagesOf(size) - 4096
    ensures size > TWO_TO_THE_64 - 4096 ==> PagesOf(size) == 0
  {
  }

  /** The next free address stays page-aligned, even when it wraps round. */
  lemma NextAligned(next: u64, pages: nat)
    requires next % PAGE_SIZE == 0
    ensures Wrap(next + pages * PAGE_SIZE) % PAGE_SIZE == 0
  {
  }

  function UnmapStart(v: u64): u64 {
    v - v % PAGE_SIZE
  }

  function UnmapCount(v: u64, size: u64): nat {
    var end := Wrap(Wrap(v + size) + PAGE_SIZE - 1) / PAGE_SIZE;
    if end <= v / PAGE_SIZE then 0 else end - v / PAGE_SIZE
  }

  lemma UnmapEnd(v: u64, size: u64)
    ensures var end := Wrap(Wrap(v + size) + PAGE_SIZE - 1);
            var n := UnmapCount(v, size);
            if n == 0 then end - end % PAGE_SIZE <= UnmapStart(v)
            else end - end % PAGE_SIZE == UnmapStart(v) + n * PAGE_SIZE
  {
  }

  /** The leaf entry of w after the first n pages from v on have been mapped to those from p on, the last one winning:
      device pages are present, writable and not cached (src/memory/vmm.c:256). */
  function RangeLeaf(mem: Memory, root: nat, v: u64, p: u64, n: nat, w: u64): Option<u64> {
    if n == 0 then Leaf(mem, root, w)
    else if PageNumber(w) == PageNumber(PageAt(v, n - 1)) then Some(PageEntry(PageAt(p, n - 1), 0x1B))
    else RangeLeaf(mem, root, v, p, n - 1, w)
  }

  ghost predicate RangeMapped(mem: Memory, mem2: Memory, root: nat, v: u64, p: u64, n: nat) {
    forall w: u64 :: Leaf(mem2, root, w) == RangeLeaf(mem, root, v, p, n, w)
  }

  lemma RangeNext(mem: Memory, mem1: Memory, mem2: Memory, root: nat, v: u64, p: u64, n: nat)
    requires RangeMapped(mem, mem1, root, v, p, n)
    requires Mapped(mem1, mem2, root, PageAt(v, n), Some(PageEntry(PageAt(p, n), 0x1B)))
    ensures RangeMapped(mem, mem2, root, v, p, n + 1)
  {
    forall w: u64
      ensures Leaf(mem2, root, w) == RangeLeaf(mem, root, v, p, n + 1, w)
    {
      assert Leaf(mem1, root, w) == RangeLeaf(mem, root, v, p, n, w);
    }
  }

  lemma RangeSame(mem: Memory, mem1: Memory, mem2: Memory, root: nat, v: u64, p: u64, n: nat)
    requires RangeMapped(mem, mem1, root, v, p, n) && SameWalks(mem1, mem2, root)
    ensures RangeMapped(mem, mem2, root, v, p, n)
  {
    forall w: u64
      ensures Leaf(mem2, root, w) == RangeLeaf(mem, root, v, p, n, w)
    {
      assert Leaf(mem1, root, w) == RangeLeaf(mem, root, v, p, n, w);
    }
  }

  /** w lies on one of the n pages from v on. */
  predicate OnPages(v: u64, n: nat, w: u64) {
    n > 0 && (PageNumber(w) == PageNumber(PageAt(v, n - 1)) || OnPages(v, n - 1, w))
  }

  ghost predicate RangeUnmapped(mem: Memory, mem2: Memory, root: nat, v: u64, n: nat) {
    forall w: u64 :: Leaf(mem2, root, w) == if OnPages(v, n, w) then None else Leaf(mem, root, w)
  }

  lemma RangeUnmappedNext(mem: Memory, mem1: Memory, mem2: Memory, root: nat, v: u64, n: nat)
    requires RangeUnmapped(mem, mem1, root, v, n) && Mapped(mem1, mem2, root, PageAt(v, n), None)
    ensures RangeUnmapped(mem, mem2, root, v, n + 1)
  {
    forall w: u64
      ensures Leaf(mem2, root, w) == if OnPages(v, n + 1, w) then None else Leaf(mem, root, w)
    {
      assert Leaf(mem1, root, w) == if OnPages(v, n, w) then None else Leaf(mem, root, w);
    }
  }

  /** Addresses outside the range keep their mapping, however far the mapping got. */
  lemma {:induction false} RangeOutside(mem: Memory, root: nat, v: u64, p: u64, n: nat, w: u64)
    requires !OnPages(v, n, w)
    ensures RangeLeaf(mem, root, v, p, n, w) == Leaf(mem, root, w)
  {
    if n > 0 {
      RangeOutside(mem, root, v, p, n - 1, w);
    }
  }

  /** Within a range that does not wrap around, every byte is translated to the byte at the same offset, and the low
      bits of its leaf entry are 0x1B. */
  lemma {:induction false} RangeOffset(mem: Memory, mem2: Memory, root: nat, v: u64, p: u64, n: nat, o: nat)
    requires v % PAGE_SIZE == 0 && p % PAGE_SIZE == 0 && n <= PAGES
    requires v + n * PAGE_SIZE <= TWO_TO_THE_64 && p + n * PAGE_SIZE <= TWO_TO_THE_64
    requires o < n * PAGE_SIZE && RangeMapped(mem, mem2, root, v, p, n)
    ensures Translate(mem2, root, v + o) == Some(p + o)
    ensures Leaf(mem2, root, v + o).Some? && Leaf(mem2, root, v + o).value % 4096 == 0x1B
  {
    var i, w := o / PAGE_SIZE, v + o;
    OffsetFields(v, p, o, i);
    RangeLeafAt(mem, root, v, p, n, i, w);
  }

  /** The page of an offset, the place on it, and the fields of the entry that maps the page. */
  lemma OffsetFields(v: nat, p: nat, o: nat, i: nat)
    requires v % PAGE_SIZE == 0 && p % PAGE_SIZE == 0 && i == o / PAGE_SIZE
    ensures (v + o) / PAGE_SIZE == v / PAGE_SIZE + i && (v + o) % PAGE_SIZE == o - i * PAGE_SIZE
    ensures (p + i * PAGE_SIZE + 0x1B) / PAGE_SIZE * PAGE_SIZE == p + i * PAGE_SIZE
    ensures (p + i * PAGE_SIZE + 0x1B) % PAGE_SIZE == 0x1B
  {
  }

  lemma {:induction false} RangeLeafAt(mem: Memory, root: nat, v: u64, p: u64, n: nat, i: nat, w: u64)
    requires v % PAGE_SIZE == 0 && p % PAGE_SIZE == 0 && i < n <= PAGES
    requires v + n * PAGE_SIZE <= TWO_TO_THE_64 && p + n * PAGE_SIZE <= TWO_TO_THE_64
    requires w / PAGE_SIZE == v / PAGE_SIZE + i
    ensures RangeLeaf(mem, root, v, p, n, w) == Some(p + i * PAGE_SIZE + 0x1B)
  {
    var m := n - 1;
    InRange(v, m);
    if i == m {
      InRange(p, m);
    } else {
      DistinctPages(v / PAGE_SIZE + i, v / PAGE_SIZE + m);
      RangeLeafAt(mem, root, v, p, m, i, w);
    }
  }

  lemma InRange(v: u64, i: nat)
    requires v % PAGE_SIZE == 0 && v + i * PAGE_SIZE < TWO_TO_THE_64
    ensures PageAt(v, i) == v + i * PAGE_SIZE && PageAt(v, i) / PAGE_SIZE == v / PAGE_SIZE + i
  {
  }

  /** A device mapping of n pages changes no translation exactly if all were mapped to the same frames before. */
  lemma NothingChanged(mem: Memory, mem2: Memory, root: nat, v: u64, p: u64, n: nat)
    requires v % PAGE_SIZE == 0 && p % PAGE_SIZE == 0 && n <= PAGES && RangeMapped(mem, mem2, root, v, p, n)
    requires v + n * PAGE_SIZE <= TWO_TO_THE_64 && p + n * PAGE_SIZE <= TWO_TO_THE_64
    ensures SameFrames(mem, mem2, root) <==> AlreadyMapped(mem, root, v, p, n)
  {
    if SameFrames(mem, mem2, root) {
      forall i | 0 <= i < n
        ensures MappedTo(mem, root, PageAt(v, i)) == Some(PageAt(p, i) / PAGE_SIZE)
      {
        RangeFrameAt(mem, mem2, root, v, p, n, i);
      }
    }
    if AlreadyMapped(mem, root, v, p, n) {
      forall w: u64
        ensures MappedTo(mem2, root, w) == MappedTo(mem, root, w)
      {
        RangeKept(mem, root, v, p, n, w);
      }
    }
  }

  lemma RangeFrameAt(mem: Memory, mem2: Memory, root: nat, v: u64, p: u64, n: nat, i: nat)
    requires v % PAGE_SIZE == 0 && p % PAGE_SIZE == 0 && i < n <= PAGES && RangeMapped(mem, mem2, root, v, p, n)
    requires v + n * PAGE_SIZE <= TWO_TO_THE_64 && p + n * PAGE_SIZE <= TWO_TO_THE_64
    ensures MappedTo(mem2, root, PageAt(v, i)) == Some(PageAt(p, i) / PAGE_SIZE)
  {
    assert PageAt(v, i) == v + i * PAGE_SIZE && PageAt(p, i) == p + i * PAGE_SIZE;
    OffsetFields(v, p, i * PAGE_SIZE, i);
    RangeLeafAt(mem, root, v, p, n, i, PageAt(v, i));
  }

  ghost predicate AlreadyMapped(mem: Memory, root: nat, v: u64, p: u64, n: nat) {
    forall i :: 0 <= i < n ==> MappedTo(mem, root, PageAt(v, i)) == Some(PageAt(p, i) / PAGE_SIZE)
  }

  lemma {:induction false} RangeKept(mem: Memory, root: nat, v: u64, p: u64, n: nat, w: u64)
    requires AlreadyMapped(mem, root, v, p, n)
    ensures var e := RangeLeaf(mem, root, v, p, n, w);
            MappedTo(mem, root, w) == if e == None then None else Some(FrameOf(e.value))
  {
    if n > 0 {
      RangeKept(mem, root, v, p, n - 1, w);
      if PageNumber(w) == PageNumber(PageAt(v, n - 1)) {
        WalkSamePage(mem, root, PageAt(v, n - 1), w, 0);
      }
    }
  }

  lemma DistinctPages(a: nat, b: nat)
    requires a < b < a + PAGES
    ensures a % PAGES != b % PAGES
  {
  }

  lemma NotMapped(mem: Memory, root: nat, place: map<nat, seq<nat>>, v: u64, k: nat, t: nat)
    requires Tree(mem, root, place) && k < 3 && Reaches(mem, root, v, 0, k, t) && t < |mem| &&
             !Present(mem[t][Index(v, k)])
    ensures Mapped(mem, mem, root, v, None)
  {
    forall w: u64 | PageNumber(w) == PageNumber(v)
      ensures Leaf(mem, root, w) == None
    {
      ReachesSamePage(mem, root, v, w, k, t);
      WalkThrough(mem, root, place, w, t, root, 0, k);
      SamePage(v, w);
    }
  }
}
