/** Device mappings one after the other (src/memory/vmm.c:166-271). */
module Devices {
  import opened Bytes
  import opened Bitmap
  import opened Paging
  import opened TableNeeds
  import opened PageRanges
  import opened DeviceRanges
  import opened Vmm

  /** A device mapping without wrap-around succeeds exactly if the free frames suffice for the tables its pages lack;
      then every byte of its range translates to the device byte at the same offset. No other translation changes. */
  method MapDevice(m: VirtualMemory, p: u64, size: u64) returns (r: Option<u64>)
    requires m.Valid() && m.hhdmOffset != 0 && p % PAGE_SIZE == 0
    requires size + PAGE_SIZE - 1 < TWO_TO_THE_64 && m.nextMmio >= MMIO_VIRTUAL_BASE
    requires p + PagesOf(size) * PAGE_SIZE <= TWO_TO_THE_64 && m.nextMmio + PagesOf(size) * PAGE_SIZE < TWO_TO_THE_64
    modifies m`mem, m`place, m`nextMmio, m.phys`used, m.phys`freeBlocks, m.phys.bitmap
    ensures m.Valid()
    ensures r.Some? <==> |Needed(old(m.mem), m.Root(), old(m.nextMmio), PagesOf(size))| <= old(m.FreeFrames())
    ensures r == None ==> m.FreeFrames() == 0
    ensures r.Some? ==> r.value == old(m.nextMmio)
    ensures r.Some? ==> m.nextMmio == r.value + PagesOf(size) * PAGE_SIZE >= r.value + size
    ensures r.Some? ==> DeviceMapped(m.mem, m.Root(), Device(p, size), r.value)
    ensures r.Some? ==> Spent(old(m.mem), old(m.FreeFrames()), m.mem, m.FreeFrames(), m.Root(), r.value, PagesOf(size))
    ensures RangeOnly(old(m.mem), m.mem, m.Root(), old(m.nextMmio), PagesOf(size))
  {
    ghost var mem, free, v, pages := m.mem, m.FreeFrames(), m.nextMmio, PagesOf(size);
    ghost var n;
    r, n := m.MapMmio(p, size);
    AttemptDone(mem, free, v, m.mem, m.FreeFrames(), m.nextMmio, m.Root(), Device(p, size), n, pages);
  }

  lemma DeviceNeed(mem: Memory, root: nat, first: u64, devices: seq<Device>, i: nat, next: u64)
    requires i < |devices| && next == first + ByteCount(devices, i)
    ensures Needed(mem, root, first, PageCount(devices, i + 1)) ==
            Needed(mem, root, first, PageCount(devices, i)) + Needed(mem, root, next, PagesOf(devices[i].size))
  {
    NoWrap(first, PageCount(devices, i));
    NeededSplit(mem, root, first, PageCount(devices, i), next, PagesOf(devices[i].size), PageCount(devices, i + 1));
  }

  lemma AttemptNext(mem0: Memory, free0: nat, first: u64, mem: Memory, free: nat, next: u64, mem2: Memory, free2: nat,
                    next2: u64, root: nat, devices: seq<Device>, bases: seq<u64>, r: Option<u64>)
    requires first >= MMIO_VIRTUAL_BASE && first % PAGE_SIZE == 0 &&
             first + ByteCount(devices, |devices|) < TWO_TO_THE_64
    requires Mapping(mem0, free0, first, mem, free, next, root, devices, bases) && |bases| < |devices|
    requires Attempted(mem, free, next, mem2, free2, next2, root, devices[|bases|], r)
    ensures r.Some? <==> |Needed(mem0, root, first, PageCount(devices, |bases| + 1))| <= free0
    ensures DevicesMapped(mem2, root, devices, bases, first)
    ensures r.Some? ==> Mapping(mem0, free0, first, mem2, free2, next2, root, devices, bases + [r.value])
  {
    var i := |bases|;
    DeviceNeed(mem0, root, first, devices, i, next);
    SpentNext(mem0, free0, mem, free, mem2, free2, root, first, PageCount(devices, i), next, PagesOf(devices[i].size),
              PageCount(devices, i + 1));
    OthersStay(first, mem, mem2, next, root, devices, bases);
    if r.Some? {
      DevicesAdd(mem2, root, devices, bases, bases + [r.value], first, r.value, next2);
      assert |bases + [r.value]| == i + 1;
    }
  }

  /** One device of MapDevices. */
  method MapNext(m: VirtualMemory, devices: seq<Device>, bases: seq<u64>, ghost mem0: Memory, ghost free0: nat,
                 ghost first: u64)
    returns (r: Option<u64>)
    requires m.Valid() && m.hhdmOffset != 0 && first >= MMIO_VIRTUAL_BASE && first % PAGE_SIZE == 0
    requires |bases| < |devices| && first + ByteCount(devices, |devices|) < TWO_TO_THE_64 && Mappable(devices[|bases|])
    requires Mapping(mem0, free0, first, m.mem, m.FreeFrames(), m.nextMmio, m.Root(), devices, bases)
    modifies m`mem, m`place, m`nextMmio, m.phys`used, m.phys`freeBlocks, m.phys.bitmap
    ensures m.Valid() && Attempted(old(m.mem), old(m.FreeFrames()), old(m.nextMmio), m.mem, m.FreeFrames(), m.nextMmio,
                                   m.Root(), devices[|bases|], r)
  {
    RoomForNext(devices, |bases|, first, m.nextMmio);
    r := MapDevice(m, devices[|bases|].paddr, devices[|bases|].size);
  }

  /** Maps devices one after the other until one fails; all those mapped before stay mapped, byte for byte. They are as
      many as the free frames suffice for, and if not all, then no frame is left. */
  method MapDevices(m: VirtualMemory, devices: seq<Device>) returns (bases: seq<u64>)
    requires m.Valid() && m.hhdmOffset != 0 && m.nextMmio >= MMIO_VIRTUAL_BASE
    requires m.nextMmio + ByteCount(devices, |devices|) < TWO_TO_THE_64
    requires forall i :: 0 <= i < |devices| ==> Mappable(devices[i])
    modifies m`mem, m`place, m`nextMmio, m.phys`used, m.phys`freeBlocks, m.phys.bitmap
    ensures m.Valid() && DevicesMapped(m.mem, m.Root(), devices, bases, old(m.nextMmio))
    ensures DevicesFit(old(m.mem), m.Root(), old(m.nextMmio), devices, old(m.FreeFrames()), |bases|)
    ensures |bases| < |devices| ==> m.FreeFrames() == 0
  {
    ghost var mem0, free0, first := m.mem, m.FreeFrames(), m.nextMmio;
    MadeNone(m.mem, m.Root());
    bases := [];
    while |bases| < |devices|
      invariant m.Valid() && Mapping(mem0, free0, first, m.mem, m.FreeFrames(), m.nextMmio, m.Root(), devices, bases)
      decreases |devices| - |bases|
    {
      ghost var mem1, free1, next1 := m.mem, m.FreeFrames(), m.nextMmio;
      var r := MapNext(m, devices, bases, mem0, free0, first);
      AttemptNext(mem0, free0, first, mem1, free1, next1, m.mem, m.FreeFrames(), m.nextMmio, m.Root(), devices, bases,
                  r);
      if r == None {
        MappingEnds(mem0, free0, first, mem1, free1, next1, m.Root(), devices, bases);
        return;
      }
      bases := bases + [r.value];
    }
    MappingEnds(mem0, free0, first, m.mem, m.FreeFrames(), m.nextMmio, m.Root(), devices, bases);
  }
}
