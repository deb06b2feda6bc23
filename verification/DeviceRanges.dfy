/** Where the registers of devices are mapped, as values (src/memory/vmm.c:166-271). */
module DeviceRanges {
  import opened Bytes
  import opened Paging
  import opened TableNeeds
  import opened PageRanges

  datatype Device = Device(paddr: u64, size: u64)

  /** Every byte of the pages of the device is found at the same offset from base, through a leaf entry
      with the low bits 0x1B: present, writable, write-through and not cached. */
  ghost predicate DeviceMapped(mem: Memory, root: nat, d: Device, base: u64) {
    forall w: u64 :: base <= w < base + PagesOf(d.size) * PAGE_SIZE ==>
        && Translate(mem, root, w) == Some(d.paddr + (w - base))
        && Leaf(mem, root, w).Some? && Leaf(mem, root, w).value % 4096 == 0x1B
  }

  /** No address off the n pages from v on has another leaf entry than before. */
  ghost predicate RangeOnly(mem: Memory, mem2: Memory, root: nat, v: u64, n: nat) {
    forall w: u64 :: !(v / PAGE_SIZE % PAGES <= PageNumber(w) < v / PAGE_SIZE % PAGES + n) ==>
      Leaf(mem2, root, w) == Leaf(mem, root, w)
  }

  lemma DeviceDone(mem: Memory, mem2: Memory, root: nat, v: u64, p: u64, size: u64)
    requires v % PAGE_SIZE == 0 && p % PAGE_SIZE == 0 && v >= MMIO_VIRTUAL_BASE
    requires v + PagesOf(size) * PAGE_SIZE < TWO_TO_THE_64 && p + PagesOf(size) * PAGE_SIZE <= TWO_TO_THE_64
    requires RangeMapped(mem, mem2, root, v, p, PagesOf(size))
    ensures DeviceMapped(mem2, root, Device(p, size), v)
  {
    forall w: u64 | v <= w < v + PagesOf(size) * PAGE_SIZE
      ensures Translate(mem2, root, w) == Some(p + (w - v))
      ensures Leaf(mem2, root, w).Some? && Leaf(mem2, root, w).value % 4096 == 0x1B
    {
      RangeOffset(mem, mem2, root, v, p, PagesOf(size), w - v);
    }
  }

  lemma RangeOnlyMapped(mem: Memory, mem2: Memory, root: nat, v: u64, p: u64, n: nat, pages: nat)
    requires v % PAGE_SIZE == 0 && v >= MMIO_VIRTUAL_BASE && v + pages * PAGE_SIZE < TWO_TO_THE_64
    requires n <= pages && RangeMapped(mem, mem2, root, v, p, n)
    ensures RangeOnly(mem, mem2, root, v, pages)
  {
    forall w: u64 | !(v / PAGE_SIZE % PAGES <= PageNumber(w) < v / PAGE_SIZE % PAGES + pages)
      ensures Leaf(mem2, root, w) == Leaf(mem, root, w)
    {
      NotOnPages(v, n, w);
      RangeOutside(mem, root, v, p, n, w);
      assert Leaf(mem2, root, w) == RangeLeaf(mem, root, v, p, n, w);
    }
  }

  lemma {:induction false} NotOnPages(v: u64, n: nat, w: u64)
    requires v % PAGE_SIZE == 0 && v >= MMIO_VIRTUAL_BASE && v + n * PAGE_SIZE < TWO_TO_THE_64
    requires !(v / PAGE_SIZE % PAGES <= PageNumber(w) < v / PAGE_SIZE % PAGES + n)
    ensures !OnPages(v, n, w)
  {
    if n > 0 {
      NotOnPages(v, n - 1, w);
      PageInRange(v, n - 1);
    }
  }

  lemma PageInRange(v: u64, i: nat)
    requires v % PAGE_SIZE == 0 && v >= MMIO_VIRTUAL_BASE && v + i * PAGE_SIZE < TWO_TO_THE_64
    ensures PageNumber(PageAt(v, i)) == v / PAGE_SIZE % PAGES + i
  {
    var q := v / PAGE_SIZE;
    assert PageAt(v, i) == v + i * PAGE_SIZE && PageAt(v, i) / PAGE_SIZE == q + i;
    var top := MMIO_VIRTUAL_BASE / PAGE_SIZE;
    assert top <= q <= q + i < TWO_TO_THE_64 / PAGE_SIZE;
    SameHigh(q, i);
  }

  /** The device range lies in the last 2^30 bytes of the address space, so page numbers in it do not wrap. */
  lemma SameHigh(q: nat, i: nat)
    requires 0xF_FFFF_FFFC_0000 <= q && q + i < 0x10_0000_0000_0000
    ensures (q + i) % PAGES == q % PAGES + i
  {
    assert q / PAGES == 0xFFFF && (q + i) / PAGES == 0xFFFF;
  }

  /** The pages and the bytes of the first n devices together. */
  function PageCount(devices: seq<Device>, n: nat): nat
    requires n <= |devices|
  {
    if n == 0 then 0 else PageCount(devices, n - 1) + PagesOf(devices[n - 1].size)
  }

  function ByteCount(devices: seq<Device>, n: nat): nat
    requires n <= |devices|
  {
    PageCount(devices, n) * PAGE_SIZE
  }

  /** Exactly the tables that the first n pages from first on lacked have been created. */
  ghost predicate Spent(mem0: Memory, free0: nat, mem: Memory, free: nat, root: nat, first: u64, n: nat) {
    Made(mem0, mem, root, Needed(mem0, root, first, n)) && free == free0 - |Needed(mem0, root, first, n)|
  }

  /** The free frames suffice for the tables that the first n devices lack exactly if n is at most count. */
  ghost predicate DevicesFit(mem: Memory, root: nat, first: u64, devices: seq<Device>, free: nat, count: nat) {
    && count <= |devices|
    && forall n :: 0 <= n <= |devices| ==> (|Needed(mem, root, first, PageCount(devices, n))| <= free <==> n <= count)
  }

  lemma LastDevice(mem: Memory, root: nat, first: u64, devices: seq<Device>, free: nat, count: nat)
    requires count <= |devices| && |Needed(mem, root, first, PageCount(devices, count))| <= free
    requires count < |devices| ==> |Needed(mem, root, first, PageCount(devices, count + 1))| > free
    ensures DevicesFit(mem, root, first, devices, free, count)
  {
    forall n | 0 <= n <= |devices|
      ensures |Needed(mem, root, first, PageCount(devices, n))| <= free <==> n <= count
    {
      if n <= count {
        PagesGrow(devices, n, count);
        NeededGrows(mem, root, first, PageCount(devices, n), PageCount(devices, count));
      } else {
        var next := count + 1;
        PagesGrow(devices, next, n);
        NeededGrows(mem, root, first, PageCount(devices, next), PageCount(devices, n));
      }
    }
  }

  lemma {:induction false} PagesGrow(devices: seq<Device>, i: nat, n: nat)
    requires i <= n <= |devices|
    ensures PageCount(devices, i) <= PageCount(devices, n)
  {
    if i < n {
      PagesGrow(devices, i, n - 1);
    }
  }

  lemma SpentNext(mem0: Memory, free0: nat, mem: Memory, free: nat, mem2: Memory, free2: nat, root: nat, first: u64,
                  n: nat, next: u64, more: nat, total: nat)
    requires Spent(mem0, free0, mem, free, root, first, n)
    requires Needed(mem0, root, first, total) == Needed(mem0, root, first, n) + Needed(mem0, root, next, more)
    ensures |Needed(mem, root, next, more)| <= free <==> |Needed(mem0, root, first, total)| <= free0
    ensures Spent(mem, free, mem2, free2, root, next, more) ==> Spent(mem0, free0, mem2, free2, root, first, total)
  {
    NextRangeNeed(mem0, mem, root, first, n, next, more, total);
    if Spent(mem, free, mem2, free2, root, next, more) {
      MadeBoth(mem0, mem, mem2, root, Needed(mem0, root, first, n), Needed(mem, root, next, more));
    }
  }

  /** The devices so far are mapped, and the next address is behind them. */
  ghost predicate DevicesAt(mem: Memory, root: nat, devices: seq<Device>, bases: seq<u64>, first: u64, next: u64) {
    DevicesMapped(mem, root, devices, bases, first) && next == first + ByteCount(devices, |bases|)
  }

  /** The registers of the device are aligned and do not wrap around. */
  ghost predicate Mappable(d: Device) {
    d.paddr % PAGE_SIZE == 0 && d.size + PAGE_SIZE - 1 < TWO_TO_THE_64 &&
        d.paddr + PagesOf(d.size) * PAGE_SIZE <= TWO_TO_THE_64
  }

  /** The first n devices are mapped, each at its base, and their address ranges follow one another from first on. */
  ghost predicate DevicesMapped(mem: Memory, root: nat, devices: seq<Device>, bases: seq<u64>, first: u64) {
    && |bases| <= |devices|
    && (forall i :: 0 <= i < |bases| ==> bases[i] == first + ByteCount(devices, i))
    && (forall i :: 0 <= i < |bases| ==> DeviceMapped(mem, root, devices[i], bases[i]))
  }

  lemma {:induction false} BytesGrow(devices: seq<Device>, i: nat, n: nat)
    requires i < n <= |devices|
    ensures ByteCount(devices, i) + PagesOf(devices[i].size) * PAGE_SIZE <= ByteCount(devices, n)
  {
    if i + 1 < n {
      BytesGrow(devices, i, n - 1);
    }
  }

  /** The ranges of different devices never overlap. */
  lemma DevicesDisjoint(mem: Memory, root: nat, devices: seq<Device>, bases: seq<u64>, first: u64, i: nat, j: nat)
    requires DevicesMapped(mem, root, devices, bases, first) && i < j < |bases|
    ensures bases[i] + PagesOf(devices[i].size) * PAGE_SIZE <= bases[j]
  {
    BytesGrow(devices, i, j);
  }

  lemma RoomForNext(devices: seq<Device>, i: nat, first: u64, next: u64)
    requires i < |devices| && first + ByteCount(devices, |devices|) < TWO_TO_THE_64 &&
             next == first + ByteCount(devices, i)
    ensures next + PagesOf(devices[i].size) * PAGE_SIZE < TWO_TO_THE_64
  {
    BytesGrow(devices, i, |devices|);
  }

  lemma NoWrap(first: u64, n: nat)
    requires first + n * PAGE_SIZE < TWO_TO_THE_64
    ensures PageAt(first, n) == first + n * PAGE_SIZE
  {
  }

  lemma OthersStay(first: u64, mem: Memory, mem2: Memory, next: u64, root: nat, devices: seq<Device>, bases: seq<u64>)
    requires first >= MMIO_VIRTUAL_BASE && first % PAGE_SIZE == 0 &&
             first + ByteCount(devices, |devices|) < TWO_TO_THE_64
    requires DevicesAt(mem, root, devices, bases, first, next) && |bases| < |devices|
    requires RangeOnly(mem, mem2, root, next, PagesOf(devices[|bases|].size))
    ensures DevicesMapped(mem2, root, devices, bases, first)
  {
    RoomForNext(devices, |bases|, first, next);
    assert DevicesMapped(mem, root, devices, bases, first);
    DevicesStay(mem, mem2, root, devices, bases, first, next, PagesOf(devices[|bases|].size));
  }

  lemma BytesNext(devices: seq<Device>, i: nat)
    requires i < |devices|
    ensures ByteCount(devices, i + 1) == ByteCount(devices, i) + PagesOf(devices[i].size) * PAGE_SIZE
  {
  }

  lemma DevicesAdd(mem: Memory, root: nat, devices: seq<Device>, bases: seq<u64>, bases2: seq<u64>, first: u64,
                   base: u64, next: u64)
    requires |bases| < |devices| && DevicesMapped(mem, root, devices, bases, first) && bases2 == bases + [base]
    requires base == first + ByteCount(devices, |bases|) && next == base + PagesOf(devices[|bases|].size) * PAGE_SIZE
    requires DeviceMapped(mem, root, devices[|bases|], base)
    ensures DevicesAt(mem, root, devices, bases2, first, next)
  {
    BytesNext(devices, |bases|);
    forall i | 0 <= i < |bases2|
      ensures bases2[i] == first + ByteCount(devices, i) && DeviceMapped(mem, root, devices[i], bases2[i])
    {
      if i < |bases| {
        assert bases2[i] == bases[i];
      } else {
        assert i == |bases| && bases2[i] == base;
      }
    }
  }

  /** Mapping a further range leaves the devices mapped before it as they are. */
  lemma DevicesStay(mem: Memory, mem2: Memory, root: nat, devices: seq<Device>, bases: seq<u64>, first: u64, v: u64,
                    n: nat)
    requires DevicesMapped(mem, root, devices, bases, first) && first >= MMIO_VIRTUAL_BASE && first % PAGE_SIZE == 0
    requires v == first + ByteCount(devices, |bases|) && v % PAGE_SIZE == 0 && v + n * PAGE_SIZE < TWO_TO_THE_64
    requires RangeOnly(mem, mem2, root, v, n)
    ensures DevicesMapped(mem2, root, devices, bases, first)
  {
    forall i | 0 <= i < |bases|
      ensures DeviceMapped(mem2, root, devices[i], bases[i])
    {
      BytesGrow(devices, i, |bases|);
      DeviceStays(mem, mem2, root, devices[i], bases[i], v, n);
    }
  }

  lemma DeviceStays(mem: Memory, mem2: Memory, root: nat, d: Device, base: u64, v: u64, n: nat)
    requires DeviceMapped(mem, root, d, base) && MMIO_VIRTUAL_BASE <= base && base + PagesOf(d.size) * PAGE_SIZE <= v
    requires v % PAGE_SIZE == 0 && RangeOnly(mem, mem2, root, v, n)
    ensures DeviceMapped(mem2, root, d, base)
  {
    forall w: u64 | base <= w < base + PagesOf(d.size) * PAGE_SIZE
      ensures Translate(mem2, root, w) == Some(d.paddr + (w - base))
      ensures Leaf(mem2, root, w).Some? && Leaf(mem2, root, w).value % 4096 == 0x1B
    {
      BelowRange(w, v);
      assert Leaf(mem2, root, w) == Leaf(mem, root, w);
    }
  }

  lemma BelowRange(w: u64, v: u64)
    requires MMIO_VIRTUAL_BASE <= w < v && v % PAGE_SIZE == 0
    ensures PageNumber(w) < v / PAGE_SIZE % PAGES
  {
    var q, r := w / PAGE_SIZE, v / PAGE_SIZE;
    assert 0xF_FFFF_FFFC_0000 <= q < r;
    SameHigh(q, r - q);
  }

  /** What a device mapping does that begins at next: none if r is None. */
  ghost predicate Attempted(mem: Memory, free: nat, next: u64, mem2: Memory, free2: nat, next2: u64, root: nat,
                            d: Device, r: Option<u64>) {
    && (r.Some? <==> |Needed(mem, root, next, PagesOf(d.size))| <= free)
    && RangeOnly(mem, mem2, root, next, PagesOf(d.size))
    && if r.Some? then
         && r.value == next && next2 == next + PagesOf(d.size) * PAGE_SIZE && DeviceMapped(mem2, root, d, next)
         && Spent(mem, free, mem2, free2, root, next, PagesOf(d.size))
       else free2 == 0
  }

  lemma PagesCover(size: u64)
    requires size + PAGE_SIZE - 1 < TWO_TO_THE_64
    ensures PagesOf(size) * PAGE_SIZE >= size
  {
  }

  /** Mapping n pages of a device, and all of them if the tables can be created, is an attempt. */
  lemma AttemptDone(mem: Memory, free: nat, v: u64, mem2: Memory, free2: nat, next2: u64, root: nat, d: Device, n: nat,
                    pages: nat)
    requires v % PAGE_SIZE == 0 && d.paddr % PAGE_SIZE == 0 && v >= MMIO_VIRTUAL_BASE && pages == PagesOf(d.size)
    requires v + pages * PAGE_SIZE < TWO_TO_THE_64 && d.paddr + pages * PAGE_SIZE <= TWO_TO_THE_64
    requires d.size + PAGE_SIZE - 1 < TWO_TO_THE_64
    requires FitsUpTo(mem, root, v, pages, free, n) && RangeMapped(mem, mem2, root, v, d.paddr, n)
    requires n == pages ==> Spent(mem, free, mem2, free2, root, v, pages)
    requires n < pages ==> free2 == 0
    requires next2 == PageAt(v, pages)
    ensures Attempted(mem, free, v, mem2, free2, next2, root, d, if n == pages then Some(v) else None)
    ensures n == pages ==> next2 >= v + d.size
  {
    PagesCover(d.size);
    if n == pages {
      DeviceDone(mem, mem2, root, v, d.paddr, d.size);
    }
    RangeOnlyMapped(mem, mem2, root, v, d.paddr, n, pages);
  }

  /** Where MapDevices stands, having begun with mem0, free0 and first. */
  ghost predicate Mapping(mem0: Memory, free0: nat, first: u64, mem: Memory, free: nat, next: u64, root: nat,
                          devices: seq<Device>, bases: seq<u64>) {
    && DevicesAt(mem, root, devices, bases, first, next)
    && Spent(mem0, free0, mem, free, root, first, PageCount(devices, |bases|))
  }

  /** It stands as far as it can if all devices are mapped or the next one does not fit. */
  lemma MappingEnds(mem0: Memory, free0: nat, first: u64, mem: Memory, free: nat, next: u64, root: nat,
                    devices: seq<Device>, bases: seq<u64>)
    requires Mapping(mem0, free0, first, mem, free, next, root, devices, bases)
    requires |bases| == |devices| || |Needed(mem0, root, first, PageCount(devices, |bases| + 1))| > free0
    ensures DevicesFit(mem0, root, first, devices, free0, |bases|)
  {
    LastDevice(mem0, root, first, devices, free0, |bases|);
  }
}
